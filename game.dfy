/**
 * The running game: the snake, the fruit, the two direction fields, the
 * score, the chosen difficulty and the history list, updated in place by
 * the move timer, the key handler, the difficulty dialog and the end of a
 * game.
 */
module Game {
  import opened Wrappers
  import opened Geometry
  import opened Collision
  import opened Movement
  import opened GridCount
  import opened Fruit
  import opened Steering
  import opened Difficulty
  import opened Ranking

  /** Exclusive bound handed to the random generator for each start coordinate: five icons less than the garden side. */
  const HeadDrawBound: int := GardenWidth - 5 * IconSize

  /** The directions in the order of their declaration; the start direction is one of the first three. */
  const DirectionValues: seq<Direction> := [Up, Down, Left, Right]

  /** The start cell for two raw random numbers: each one's remainder modulo the icon size, times the icon size. */
  function StartHead(leftDraw: int, topDraw: int): (head: Position)
    requires 0 <= leftDraw && 0 <= topDraw
    ensures InGarden(head) && Aligned(head)
    ensures head.left <= 24 * IconSize && head.top <= 24 * IconSize
  {
    Position(leftDraw % IconSize * IconSize, topDraw % IconSize * IconSize)
  }

  class SnakeGame {
    /** The snake's cells, head first. */
    var snake: seq<Position>
    var fruit: Position
    var previousDirection: Direction
    var currentDirection: Direction
    /** Whether the last move ate the fruit, so that a new one is placed before the next move. */
    var fruitEaten: bool
    /** Milliseconds between two moves. */
    var difficulty: int
    var difficultyString: string
    var score: int
    /** The history list; None until it is loaded or first appended to. */
    var histories: Option<seq<History>>

    /**
     * The invariant of a running game: a well-formed snake one cell longer
     * than the score, both direction fields equal, the fruit on a grid cell
     * and, unless it was just eaten, off the snake.
     */
    ghost predicate Valid()
      reads this
    {
      WellFormed(snake) && score + 1 == |snake| &&
      previousDirection == currentDirection &&
      InGarden(fruit) && Aligned(fruit) &&
      (!fruitEaten ==> fruit !in snake)
    }

    /**
     * A new game from the random numbers it draws: a one-cell snake at the
     * start cell, a start direction other than right, a first fruit, the
     * normal interval until a difficulty is chosen, no history yet.
     */
    constructor (headLeftDraw: int, headTopDraw: int, directionDraw: int, fruitDraws: seq<Draw>)
      requires 0 <= headLeftDraw < HeadDrawBound && 0 <= headTopDraw < HeadDrawBound
      requires 0 <= directionDraw < 3
      requires DrawsInRange(fruitDraws) && HasFreeDraw([StartHead(headLeftDraw, headTopDraw)], fruitDraws)
      ensures Valid()
      ensures snake == [StartHead(headLeftDraw, headTopDraw)]
      ensures previousDirection == currentDirection == DirectionValues[directionDraw] && currentDirection != Right
      ensures fruit == SpawnFruit(snake, fruitDraws)
      ensures fruitEaten && score == 0 && histories == None
      ensures difficulty == NormalInterval && difficultyString == ""
    {
      snake := [StartHead(headLeftDraw, headTopDraw)];
      previousDirection := DirectionValues[directionDraw];
      currentDirection := DirectionValues[directionDraw];
      fruitEaten := true;
      difficulty := NormalInterval;
      difficultyString := "";
      score := 0;
      histories := None;
      fruit := Position(0, 0);
      new;
      fruit := GenerateFruit(fruitDraws);
    }

    /** The score of a running game stays below the 900 cells of the garden, well inside a 32-bit integer. */
    lemma ScoreBound()
      requires Valid()
      ensures 0 <= score < Columns * Rows
    {
      LengthBound(snake);
    }

    /** Draw cells until one is off the snake; that cell is the fruit the first free attempt proposes. */
    method GenerateFruit(draws: seq<Draw>) returns (newFruit: Position)
      requires DrawsInRange(draws) && HasFreeDraw(snake, draws)
      ensures newFruit == SpawnFruit(snake, draws)
    {
      var i := 0;
      newFruit := FruitCell(draws[0]);
      while newFruit in snake
        invariant 0 <= i < |draws| && newFruit == FruitCell(draws[i])
        invariant DrawsInRange(draws[i..]) && HasFreeDraw(snake, draws[i..])
        invariant SpawnFruit(snake, draws[i..]) == SpawnFruit(snake, draws)
        decreases |draws| - i
      {
        assert draws[i..][1..] == draws[i + 1..];
        i := i + 1;
        newFruit := FruitCell(draws[i]);
      }
    }

    /**
     * The part the four moves share: check the new head against the body
     * as it is, put it in front, then either drop the tail or, on the fruit,
     * keep it and add one to the score.
     */
    method Crawl(newHead: Position, target: Position) returns (r: MoveResult)
      modifies this`snake, this`score
      ensures r == Advance(old(snake), newHead, target)
      ensures r.Conflict? ==> snake == old(snake) && score == old(score)
      ensures r.Moved? ==> snake == r.body && score == old(score) + (if r.ate then 1 else 0)
    {
      if Conflicts(newHead, snake) {
        return Conflict;
      }
      snake := [newHead] + snake;
      if target != newHead {
        snake := snake[..|snake| - 1];
        r := Moved(snake, false);
      } else {
        score := score + 1;
        r := Moved(snake, true);
      }
    }

    method MoveUp(target: Position) returns (r: MoveResult)
      requires |snake| >= 1
      modifies this`snake, this`score
      ensures r == Step(old(snake), Up, target)
      ensures r.Conflict? ==> snake == old(snake) && score == old(score)
      ensures r.Moved? ==> snake == r.body && score == old(score) + (if r.ate then 1 else 0)
    {
      var oldHead := snake[0];
      r := Crawl(Position(oldHead.left, oldHead.top - IconSize), target);
    }

    method MoveDown(target: Position) returns (r: MoveResult)
      requires |snake| >= 1
      modifies this`snake, this`score
      ensures r == Step(old(snake), Down, target)
      ensures r.Conflict? ==> snake == old(snake) && score == old(score)
      ensures r.Moved? ==> snake == r.body && score == old(score) + (if r.ate then 1 else 0)
    {
      var oldHead := snake[0];
      r := Crawl(Position(oldHead.left, oldHead.top + IconSize), target);
    }

    method MoveLeft(target: Position) returns (r: MoveResult)
      requires |snake| >= 1
      modifies this`snake, this`score
      ensures r == Step(old(snake), Left, target)
      ensures r.Conflict? ==> snake == old(snake) && score == old(score)
      ensures r.Moved? ==> snake == r.body && score == old(score) + (if r.ate then 1 else 0)
    {
      var oldHead := snake[0];
      r := Crawl(Position(oldHead.left - IconSize, oldHead.top), target);
    }

    method MoveRight(target: Position) returns (r: MoveResult)
      requires |snake| >= 1
      modifies this`snake, this`score
      ensures r == Step(old(snake), Right, target)
      ensures r.Conflict? ==> snake == old(snake) && score == old(score)
      ensures r.Moved? ==> snake == r.body && score == old(score) + (if r.ate then 1 else 0)
    {
      var oldHead := snake[0];
      r := Crawl(Position(oldHead.left + IconSize, oldHead.top), target);
    }

    /** The switch on the current direction: one move that way towards `target`. */
    method MoveAhead(target: Position) returns (r: MoveResult)
      requires |snake| >= 1
      modifies this`snake, this`score
      ensures r == Step(old(snake), currentDirection, target)
      ensures r.Conflict? ==> snake == old(snake) && score == old(score)
      ensures r.Moved? ==> snake == r.body && score == old(score) + (if r.ate then 1 else 0)
    {
      match currentDirection {
        case Up => r := MoveUp(target);
        case Down => r := MoveDown(target);
        case Left => r := MoveLeft(target);
        case Right => r := MoveRight(target);
      }
    }

    /**
     * One round of the move timer: place a new fruit if the last one was
     * eaten, then move in the current direction. A collision ends the game:
     * the snake and score stay as they were and the score is appended to the
     * history. Otherwise the move's body and eaten flag are kept, and the
     * game stays valid.
     */
    method Tick(draws: seq<Draw>, now: int) returns (over: bool)
      requires Valid()
      requires DrawsInRange(draws) && (fruitEaten ==> HasFreeDraw(snake, draws))
      modifies this
      ensures Valid()
      ensures fruit == if old(fruitEaten) then SpawnFruit(old(snake), draws) else old(fruit)
      ensures var r := Step(old(snake), currentDirection, fruit);
              over == r.Conflict? &&
              (r.Conflict? ==>
                 snake == old(snake) && score == old(score) && fruitEaten == old(fruitEaten) &&
                 histories == Some(old(histories).GetOr([]) + [History(score, difficultyString, now)])) &&
              (r.Moved? ==>
                 snake == r.body && fruitEaten == r.ate && histories == old(histories) &&
                 score == old(score) + (if r.ate then 1 else 0))
      ensures previousDirection == old(previousDirection) && currentDirection == old(currentDirection)
      ensures difficulty == old(difficulty) && difficultyString == old(difficultyString)
    {
      if fruitEaten {
        fruit := GenerateFruit(draws);
      }
      assert fruit !in snake;
      var r := MoveAhead(fruit);
      if r.Conflict? {
        SaveScoreToFile(now);
        over := true;
      } else {
        fruitEaten := r.ate;
        over := false;
        StepKeepsGame(old(snake), currentDirection, fruit, old(score));
      }
    }

    /** Append one record with the current score and difficulty label, creating the list if there is none. */
    method SaveScoreToFile(now: int)
      modifies this`histories
      ensures histories == Some(old(histories).GetOr([]) + [History(score, difficultyString, now)])
    {
      if histories.None? {
        histories := Some([]);
      }
      histories := Some(histories.value + [History(score, difficultyString, now)]);
    }

    /** Take the stored history list, or an empty one when reading it failed (None). */
    method LoadHistories(stored: Option<seq<History>>)
      modifies this`histories
      ensures histories == Some(stored.GetOr([]))
    {
      match stored {
        case Some(list) => histories := Some(list);
        case None => histories := Some([]);
      }
    }

    /**
     * The rows of the history panel: the list is sorted in place by score,
     * highest first, and its first twenty records become rows ranked 1, 2, ...
     */
    method HistoriesRows() returns (rows: seq<Row>)
      requires histories.Some?
      modifies this`histories
      ensures histories == Some(SortByScore(old(histories).value))
      ensures SortedByScore(histories.value) && multiset(histories.value) == multiset(old(histories).value)
      ensures |rows| == if |histories.value| < MaxRows then |histories.value| else MaxRows
      ensures forall i :: 0 <= i < |rows| ==>
                rows[i] == Row(i + 1, histories.value[i].score, histories.value[i].mode, histories.value[i].date)
    {
      if |histories.value| > 0 {
        histories := Some(SortByScore(histories.value));
      }
      rows := RankedRows(histories.value);
    }

    /**
     * The direction handler: nothing happens when the previous direction is
     * `opposite`; otherwise both direction fields become `requested`.
     */
    method ChangeDirection(opposite: Direction, requested: Direction)
      modifies this`previousDirection, this`currentDirection
      ensures (previousDirection, currentDirection) ==
                Steer(old(previousDirection), old(currentDirection), opposite, requested)
      ensures old(Valid()) ==> Valid()
    {
      if previousDirection == opposite {
        return;
      }
      currentDirection := requested;
      if currentDirection == previousDirection {
        return;
      }
      previousDirection := currentDirection;
    }

    /** A key press: a direction key is passed on with its opposite; other keys change nothing. */
    method KeyPressed(keyCode: int)
      modifies this`previousDirection, this`currentDirection
      ensures var route := KeyRoute(keyCode);
              (previousDirection, currentDirection) ==
                if route.Some? then Steer(old(previousDirection), old(currentDirection), route.value.0, route.value.1)
                else (old(previousDirection), old(currentDirection))
      ensures old(Valid()) ==> Valid()
    {
      if keyCode == KeyUp || keyCode == KeyW {
        ChangeDirection(Down, Up);
      }
      if keyCode == KeyDown || keyCode == KeyS {
        ChangeDirection(Up, Down);
      }
      if keyCode == KeyLeft || keyCode == KeyA {
        ChangeDirection(Right, Left);
      }
      if keyCode == KeyRight || keyCode == KeyD {
        ChangeDirection(Left, Right);
      }
    }

    /**
     * Apply the dialog's answer: a valid index sets the interval and the
     * label; any other index fails when the label is read, before anything
     * is changed (ok is false).
     */
    method ChooseDifficulty(response: int) returns (ok: bool)
      modifies this`difficulty, this`difficultyString
      ensures var setting := ChooseSetting(response);
              ok == setting.Some? &&
              (ok ==> difficulty == setting.value.interval && difficultyString == setting.value.mode) &&
              (!ok ==> difficulty == old(difficulty) && difficultyString == old(difficultyString))
      ensures old(Valid()) ==> Valid()
    {
      if !(0 <= response < |Options|) {
        return false;
      }
      difficultyString := Options[response];
      difficulty := SwitchInterval(response);
      ok := true;
    }
  }
}
