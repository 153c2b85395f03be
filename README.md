# Snake game core, modelled in Dafny

This project models the game logic of a Java Swing snake game (`SnakeGame.java`).
A snake of 25-pixel cells moves in a 750 x 750 pixel garden, one cell per tick of
the move timer. It grows by one cell and scores one point for each fruit it eats.
It dies when its new head leaves the garden or lands on its own body. The finished
game's score is then appended to a history list. The score panel shows that list
sorted by score, at most twenty ranked rows.

Modules, leaf first:

- `Geometry`: pixel positions, the four directions, the garden constants, one step in a direction.
- `Collision`: the rule `checkConflict` applies to a new head. It is checked against the body as it is before the move.
- `Movement`: one move as a pure function (`Step`), the snake invariant (`WellFormed`) and the lemmas that moves keep it. `GridCount` proves that a well-formed snake has at most 900 cells.
- `Fruit`: the rejection sampling of `generateFruit`, with the random numbers given as a sequence of attempts.
- `Steering`: key routing and the direction handler.
- `Difficulty`: the dialog index mapped to a move interval and a label.
- `Ranking`: history records, their comparison, the sort and the top-twenty rows.
- `Game`: the class `SnakeGame`. It has the source's fields and methods: moves, tick, key handling, difficulty choice, history append, load and display. Each method's postcondition states the new state in terms of the pure functions above. The game invariant `Valid()` is established by the constructor and kept by `Tick`, `ChangeDirection`, `KeyPressed` and `ChooseDifficulty`. The history methods change only the history list, which `Valid()` does not constrain. The move methods are helpers of `Tick` and do not keep `Valid()` on their own: a move that eats the fruit leaves it under the head until `Tick` sets `fruitEaten`.

A collision is not an exception here. The moves return `MoveResult.Conflict`, and `Tick` returns `over == true` after appending the score.

Two modelling choices follow the code closely:

- Positions are pixels (multiples of 25), not cell indices.
- `changeDirection` itself overwrites `previousDirection`; the move does not. As a result, the two direction fields are always equal (`Valid()`).

## Model

| member | source | states |
|---|---|---|
| Geometry.NextHeadStep | src/edu/li/snake/SnakeGame.java:412-479 | a move's new head is an orthogonal neighbour of the old head, stays on the grid, and stepping back the opposite way returns to the old head |
| Collision.Conflicts | src/edu/li/snake/SnakeGame.java:488-493 | for a grid-aligned head, the pixel test fails exactly when the head is on the pre-move snake or its column or row index lies outside 0..29; in general, exactly when the head is not a free garden cell |
| Movement.Advance | src/edu/li/snake/SnakeGame.java:416-427 | a conflict exactly when the check fails; otherwise the head is prepended and the result is the first n+1 cells (eaten, head on the fruit) or the first n cells (tail dropped) |
| Movement.Step | src/edu/li/snake/SnakeGame.java:412-479 | a successful move's first cell is the old head shifted one icon in the direction, a neighbour of the old head |
| Movement.StepShape | src/edu/li/snake/SnakeGame.java:412-427 | a move ends the game exactly when the shifted head conflicts; otherwise the new head goes in front and the old cells keep their order; the snake grows by one exactly when the head is on the fruit (returns true), and loses the tail otherwise |
| Movement.TailCellConflicts | src/edu/li/snake/SnakeGame.java:416-418 | moving into the current tail cell is a collision, because the check runs before the tail is removed |
| Movement.StepPreservesWellFormed | src/edu/li/snake/SnakeGame.java:416-421 | every non-colliding move keeps the snake non-empty, in the garden, on the grid, duplicate-free and connected |
| Movement.MissKeepsFruitFree | src/edu/li/snake/SnakeGame.java:420-421 | a fruit that was off the snake and is not eaten is still off the snake after the move |
| Movement.StepKeepsGame | src/edu/li/snake/SnakeGame.java:416-427 | a non-colliding move keeps the snake well formed and one cell longer than the score, which rises by one exactly on eating; an uneaten fruit stays off the snake |
| Movement.StepNeck | src/edu/li/snake/SnakeGame.java:412-418 | after a move in direction d, the second cell lies one step from the head in the opposite direction |
| GridCount.LengthBound | src/edu/li/snake/SnakeGame.java:39 | a well-formed snake has at most 900 cells, the number of grid cells in the garden |
| Fruit.FruitCoordinate | src/edu/li/snake/SnakeGame.java:401-402 | each fruit coordinate is a multiple of 25 between 0 and 600 |
| Fruit.SpawnFruit | src/edu/li/snake/SnakeGame.java:399-409 | the fruit is the cell of the first attempt that is off the snake; it is not on the snake and is a grid cell of the garden |
| Fruit.FruitMissesLastColumns | src/edu/li/snake/SnakeGame.java:401-402 | as written, no attempt reaches a coordinate of 625 or more, so the corner cell (725, 725) never gets a fruit |
| Fruit.IntendedFruitCoversGarden | src/edu/li/snake/SnakeGame.java:401-402 | the corrected placement reaches exactly the grid coordinates of the garden, every one of them |
| Steering.KeyRoute | src/edu/li/snake/SnakeGame.java:505-519 | exactly the arrow and W/S/A/D keys are handled; each is routed with its requested direction and that direction's true opposite |
| Steering.Steer | src/edu/li/snake/SnakeGame.java:529-539 | if the previous direction equals the given opposite, nothing changes; otherwise both fields become the requested direction |
| Steering.SteerOutcome | src/edu/li/snake/SnakeGame.java:529-539 | equal direction fields stay equal after any request, and repeating the same request changes nothing more |
| Steering.DoubleTapReverses | src/edu/li/snake/SnakeGame.java:529-539 | as written, Up then Left pressed within one tick while moving right leaves Left as the next move, which collides with the neck |
| Steering.ProposalsNeverReverse | src/edu/li/snake/SnakeGame.java:529-539 | with the corrected handler, which checks against the last completed move, no sequence of key presses makes the pending direction its reverse |
| Steering.NeverIntoNeck | src/edu/li/snake/SnakeGame.java:529-539 | with the corrected handler, the next head after any key presses is never the neck cell |
| Difficulty.SwitchInterval | src/edu/li/snake/SnakeGame.java:378-393 | the switch maps 0, 1, 2, 3 to 500, 300, 100, 50 ms and every other index to 300 |
| Difficulty.ChooseSetting | src/edu/li/snake/SnakeGame.java:370-394 | an index gives a setting exactly when it is 0..3, with label options[index] and interval 500, 300, 100, 50 for 0, 1, 2, 3; any other index fails on the array read, so the switch's default is never used |
| Difficulty.SettingOrder | src/edu/li/snake/SnakeGame.java:33-36 | 0, 1, 2, 3 give Easy 500, Normal 300, Hard 100, Hell 50 ms, strictly decreasing: Hell is the fastest, Easy the slowest |
| Ranking.CompareTo | src/edu/li/snake/SnakeGame.java:612-619 | the comparison returns -1 or 1, and -1 exactly when this record's score is strictly higher |
| Ranking.CompareToUnlawfulOnTies | src/edu/li/snake/SnakeGame.java:612-619 | on equal scores the comparison returns 1 both ways, including a record compared with itself |
| Ranking.InsertRanked | src/edu/li/snake/SnakeGame.java:160 | inserting one record adds exactly that record (multiset) and grows the list by one |
| Ranking.InsertRankedSorted | src/edu/li/snake/SnakeGame.java:160 | inserting into a list sorted by non-increasing score keeps it sorted |
| Ranking.SortByScore | src/edu/li/snake/SnakeGame.java:158-160 | the sorted history has non-increasing scores and is a permutation of the input |
| Ranking.TiesAheadOfLower | src/edu/li/snake/SnakeGame.java:160 | records scoring 10, 7, 10 sort with both tens before the seven |
| Ranking.RankedRows | src/edu/li/snake/SnakeGame.java:162-172 | min(n, 20) rows; row i has rank i+1 and the i-th record's score, mode and date |
| Ranking.RankedRowsOrdered | src/edu/li/snake/SnakeGame.java:160-172 | rows taken from the sorted list have increasing ranks and non-increasing scores |
| Game.StartHead | src/edu/li/snake/SnakeGame.java:189-191 | the start cell is a grid cell of the garden with both coordinates at most 600 |
| Game.SnakeGame.constructor | src/edu/li/snake/SnakeGame.java:185-200 | a new game is valid: a one-cell snake at the start cell, both directions equal to one of Up/Down/Left (never Right), a first fruit off the snake, score 0, fruit marked eaten so the first tick places a new one |
| Game.SnakeGame.ScoreBound | src/edu/li/snake/SnakeGame.java:60 | in a running game the score is between 0 and 899, so the Java int never overflows |
| Game.SnakeGame.GenerateFruit | src/edu/li/snake/SnakeGame.java:399-409 | the retry loop returns the fruit `SpawnFruit` specifies |
| Game.SnakeGame.Crawl | src/edu/li/snake/SnakeGame.java:416-427 | checks first (nothing changes on a conflict), then prepends, then drops the tail or adds one to the score |
| Game.SnakeGame.MoveUp | src/edu/li/snake/SnakeGame.java:412-428 | the result and new snake and score are those of a step Up (top - 25) |
| Game.SnakeGame.MoveDown | src/edu/li/snake/SnakeGame.java:430-445 | the result and new snake and score are those of a step Down (top + 25) |
| Game.SnakeGame.MoveLeft | src/edu/li/snake/SnakeGame.java:447-462 | the result and new snake and score are those of a step Left (left - 25) |
| Game.SnakeGame.MoveRight | src/edu/li/snake/SnakeGame.java:464-479 | the result and new snake and score are those of a step Right (left + 25) |
| Game.SnakeGame.MoveAhead | src/edu/li/snake/SnakeGame.java:226-239 | the switch on the current direction: the result, snake and score are those of a step in that direction |
| Game.SnakeGame.Tick | src/edu/li/snake/SnakeGame.java:222-246 | a new fruit if the last one was eaten, then a move in the current direction. A collision freezes snake, score and flag and appends one history record. Otherwise it takes the new body; the score rises by 1 exactly on eating. The game stays valid |
| Game.SnakeGame.SaveScoreToFile | src/edu/li/snake/SnakeGame.java:258-263 | appends exactly one record with the current score and difficulty label, creating the list if it was absent |
| Game.SnakeGame.LoadHistories | src/edu/li/snake/SnakeGame.java:352-361 | the stored list, or an empty list when reading failed |
| Game.SnakeGame.HistoriesRows | src/edu/li/snake/SnakeGame.java:151-178 | the history is sorted in place (sorted, same records) and the first twenty become ranked rows |
| Game.SnakeGame.ChangeDirection | src/edu/li/snake/SnakeGame.java:529-539 | the new direction pair is `Steer` of the old pair; the invariant is kept |
| Game.SnakeGame.KeyPressed | src/edu/li/snake/SnakeGame.java:500-520 | a direction key applies the handler with its route; every other key changes nothing |
| Game.SnakeGame.ChooseDifficulty | src/edu/li/snake/SnakeGame.java:370-394 | a valid index sets interval and label from the mapping; any other index fails before changing anything |

## Left out

- The Swing window, panels, painting, head icons and image loading: rendering only.
- Background audio: a separate thread calling a foreign applet API.
- Timers, `Thread.sleep`, the `while (true)` driver loop and the `volatile` field: these are concurrency and timing. `Tick` models one round of the loop body and its catch block. Callers stop calling it once it returns `over`, as the source cancels both timers.
- The modal dialogs: the difficulty dialog's answer is the `response` parameter. The game-over message is not modelled.
- `java.util.Random`: the raw numbers are parameters. The constructor takes the start draws, and `Fruit.Draw` holds the attempts for `generateFruit`.
- Game.SnakeGame.GenerateFruit: requires that some given attempt is off the snake. The source loops forever when none ever is, for example when the snake covers all 625 reachable cells.
- Java serialisation: writing the list in `saveScoreToFile` and reading it in `getHistoryFromFile` are file I/O. `LoadHistories` receives the read's outcome (None for a failed read). So the round trip through the file is not modelled.
- Date formatting and the HTML markup of the history panel: a date is an integer timestamp, and a shown row is a `Row` value.
- Position.hashCode: it is never used by the logic. `Position.equals` is the structural equality of the `Position` datatype.
- Ranking.SortByScore: states no order among equal scores, on purpose. The library sort is modelled as inserting each record in turn (the step it uses for lists of under 32 records). Its run merging for longer lists is not modelled. There, the comparison's answer of 1 on both sides of a tie may make the library throw.
- Game.SnakeGame.ChooseDifficulty: when the index is invalid, the source throws out of the panel's constructor. The model returns `ok == false` and changes nothing.
- `difficultyString` starts as `""` instead of null. It is always set by the dialog before the first tick can run.
- Game.SnakeGame.Tick: a terminal game is not marked in the object, because the source has no such field.
- The findings below are modelled as written in the class `SnakeGame`, because it models the code. Each corrected definition is stated and proved beside it.

## Findings

| source | as written | input that shows it | evidently intended | confidence | as-written member | corrected member |
|---|---|---|---|---|---|---|
| src/edu/li/snake/SnakeGame.java:529-539 | the handler checks a request against `previousDirection` and sets that field at key-press time, so the check sees the last requested direction, not the last move | snake [(50,0),(25,0)] moving right; Up then Left pressed before the next tick; the next move goes Left into the neck and ends the game | reject a request that reverses the last completed move; only the move commits the direction | medium, not executed | Steering.DoubleTapReverses | Steering.ProposalsNeverReverse |
| src/edu/li/snake/SnakeGame.java:401-402 | `nextInt(725) % 25 * 25` yields only 0..600 | any draw: cell (725, 725), and every cell with a coordinate of 625 or more, never gets a fruit | a random grid cell anywhere in the garden, `nextInt(30) * 25` | medium, not executed | Fruit.FruitMissesLastColumns | Fruit.IntendedFruitCoversGarden |
