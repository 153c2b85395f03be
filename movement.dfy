/**
 * One move of the snake: the new head is checked against the body as it is
 * now, then put in front; the tail is dropped unless the head lands on the
 * fruit, in which case the snake grows by one.
 */
module Movement {
  import opened Geometry
  import opened Collision

  /** What a move produces: the collision that ends the game, or the new body and whether the fruit was eaten. */
  datatype MoveResult = Conflict | Moved(body: seq<Position>, ate: bool)

  /** A snake as it is while the game runs: head first, never empty, on the grid, distinct cells, each next to the one before. */
  predicate WellFormed(snake: seq<Position>) {
    |snake| >= 1 &&
    (forall i :: 0 <= i < |snake| ==> InGarden(snake[i]) && Aligned(snake[i])) &&
    (forall i, j :: 0 <= i < j < |snake| ==> snake[i] != snake[j]) &&
    (forall i :: 0 <= i < |snake| - 1 ==> Adjacent(snake[i], snake[i + 1]))
  }

  /** Check the new head, put it in front, and drop the last cell unless the head is on the fruit. */
  function Advance(snake: seq<Position>, newHead: Position, fruit: Position): (r: MoveResult)
    ensures r.Conflict? <==> Conflicts(newHead, snake)
    ensures r.Moved? ==>
              r.ate == (newHead == fruit) &&
              |r.body| == |snake| + (if r.ate then 1 else 0) &&
              r.body == ([newHead] + snake)[..|snake| + (if r.ate then 1 else 0)]
  {
    if Conflicts(newHead, snake) then Conflict
    else
      var grown := [newHead] + snake;
      if fruit != newHead then Moved(grown[..|grown| - 1], false)
      else Moved(grown, true)
  }

  /** One move of a non-empty snake in direction `d` towards the current fruit. */
  function Step(snake: seq<Position>, d: Direction, fruit: Position): (r: MoveResult)
    requires |snake| >= 1
    ensures r.Moved? ==> |r.body| >= 1 && r.body[0] == NextHead(snake[0], d) && Adjacent(r.body[0], snake[0])
  {
    Advance(snake, NextHead(snake[0], d), fruit)
  }

  /**
   * A move either ends the game, exactly when the shifted head conflicts,
   * or prepends that head and keeps the old cells in order; it grows by
   * one cell exactly when the head lands on the fruit, and otherwise loses
   * the tail.
   */
  lemma StepShape(snake: seq<Position>, d: Direction, fruit: Position)
    requires |snake| >= 1
    ensures Step(snake, d, fruit).Conflict? <==> Conflicts(NextHead(snake[0], d), snake)
    ensures Step(snake, d, fruit).Moved? ==>
              var r := Step(snake, d, fruit);
              r.body[0] == NextHead(snake[0], d) &&
              r.ate == (NextHead(snake[0], d) == fruit) &&
              |r.body| == |snake| + (if r.ate then 1 else 0) &&
              r.body[1..] == snake[..|r.body| - 1]
  {
  }

  /** Moving into the cell the tail occupies now ends the game, although that cell would be vacated by the same move. */
  lemma TailCellConflicts(snake: seq<Position>, d: Direction, fruit: Position)
    requires |snake| >= 1 && NextHead(snake[0], d) == snake[|snake| - 1]
    ensures Step(snake, d, fruit).Conflict?
  {
  }

  /** Every move that does not end the game keeps a well-formed snake well formed. */
  lemma StepPreservesWellFormed(snake: seq<Position>, d: Direction, fruit: Position)
    requires WellFormed(snake)
    requires Step(snake, d, fruit).Moved?
    ensures WellFormed(Step(snake, d, fruit).body)
  {
  }

  /** A fruit that was off the snake and was not eaten is still off the snake after the move. */
  lemma MissKeepsFruitFree(snake: seq<Position>, d: Direction, fruit: Position)
    requires |snake| >= 1 && fruit !in snake
    requires Step(snake, d, fruit).Moved? && !Step(snake, d, fruit).ate
    ensures fruit !in Step(snake, d, fruit).body
  {
  }

  /** After a move in direction `d` the old head, now second, lies one step behind the new head. */
  lemma StepNeck(snake: seq<Position>, d: Direction, fruit: Position)
    requires |snake| >= 1
    requires Step(snake, d, fruit).Moved? && |Step(snake, d, fruit).body| >= 2
    ensures var body := Step(snake, d, fruit).body; body[1] == NextHead(body[0], Opposite(d))
  {
  }

  /**
   * What a running game needs from a move that does not end it: the snake
   * stays well formed, stays one cell longer than the score (which rises by
   * one exactly on eating), and a fruit that was not eaten stays off it.
   */
  lemma StepKeepsGame(snake: seq<Position>, d: Direction, fruit: Position, score: int)
    requires WellFormed(snake) && score + 1 == |snake| && fruit !in snake
    requires Step(snake, d, fruit).Moved?
    ensures var r := Step(snake, d, fruit);
            WellFormed(r.body) &&
            score + (if r.ate then 1 else 0) + 1 == |r.body| &&
            (!r.ate ==> fruit !in r.body)
  {
    StepShape(snake, d, fruit);
    StepPreservesWellFormed(snake, d, fruit);
    if !Step(snake, d, fruit).ate {
      MissKeepsFruitFree(snake, d, fruit);
    }
  }
}
