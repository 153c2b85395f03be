/** The collision rule applied to a new head before the snake is changed. */
module Collision {
  import opened Geometry

  /** Number of grid columns and rows of the garden. */
  const Columns: int := GardenWidth / IconSize
  const Rows: int := GardenHeight / IconSize

  /**
   * True exactly when the game ends on this head: it is already a cell of
   * the snake (the body as it was BEFORE the move, tail included), or the
   * icon drawn at it would stick out of the garden on either axis. For a
   * grid-aligned head the pixel test is the same as asking whether the
   * column or row index falls outside 0 .. 29; the first ensures ties the
   * check to `InGarden`, the predicate the snake's invariant uses.
   */
  predicate Conflicts(newHead: Position, snake: seq<Position>)
    ensures Conflicts(newHead, snake) <==> !(InGarden(newHead) && newHead !in snake)
    ensures Aligned(newHead) ==>
              (Conflicts(newHead, snake) <==>
                 newHead in snake ||
                 !(0 <= newHead.left / IconSize < Columns) ||
                 !(0 <= newHead.top / IconSize < Rows))
  {
    newHead in snake ||
    newHead.left < 0 || newHead.left + IconSize > GardenWidth ||
    newHead.top < 0 || newHead.top + IconSize > GardenHeight
  }
}
