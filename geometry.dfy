/**
 * The garden the snake lives in: pixel positions on a 750 x 750 area in
 * steps of one 25-pixel icon, and the four directions of movement.
 */
module Geometry {

  /** Side of one icon, and so of one cell, in pixels. */
  const IconSize: int := 25
  const GardenWidth: int := 750
  const GardenHeight: int := 750

  /** A cell given by the pixel coordinates of its upper-left corner; equality is structural. */
  datatype Position = Position(left: int, top: int)

  datatype Direction = Up | Down | Left | Right

  function Opposite(d: Direction): (o: Direction)
    ensures o != d
  {
    match d
    case Up => Down
    case Down => Up
    case Left => Right
    case Right => Left
  }

  /** The cell one icon away from `p` in direction `d`. */
  function NextHead(p: Position, d: Direction): Position {
    match d
    case Up => Position(p.left, p.top - IconSize)
    case Down => Position(p.left, p.top + IconSize)
    case Left => Position(p.left - IconSize, p.top)
    case Right => Position(p.left + IconSize, p.top)
  }

  /** The whole icon drawn at `p` lies inside the garden. */
  predicate InGarden(p: Position) {
    0 <= p.left && p.left + IconSize <= GardenWidth &&
    0 <= p.top && p.top + IconSize <= GardenHeight
  }

  /** `p` sits on the icon grid. */
  predicate Aligned(p: Position) {
    p.left % IconSize == 0 && p.top % IconSize == 0
  }

  /** `p` and `q` are orthogonal neighbours on the grid. */
  predicate Adjacent(p: Position, q: Position) {
    (p.left == q.left && (p.top - q.top == IconSize || q.top - p.top == IconSize)) ||
    (p.top == q.top && (p.left - q.left == IconSize || q.left - p.left == IconSize))
  }

  /** Stepping one icon in any direction lands on a neighbouring grid cell. */
  lemma NextHeadStep(p: Position, d: Direction)
    ensures Adjacent(NextHead(p, d), p)
    ensures Aligned(p) ==> Aligned(NextHead(p, d))
    ensures NextHead(NextHead(p, d), Opposite(d)) == p
  {
  }

  /** The four steps from one cell reach four different cells. */
  lemma NextHeadInjective(p: Position, d: Direction, e: Direction)
    ensures NextHead(p, d) == NextHead(p, e) <==> d == e
  {
  }
}
