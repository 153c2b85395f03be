/**
 * Keyboard input: each direction key (an arrow or its W/S/A/D twin) is
 * routed to the direction handler together with the direction opposite to
 * the one it asks for.
 */
module Steering {
  import opened Wrappers
  import opened Geometry
  import opened Movement

  /** Key codes of the keys the game listens to, as the AWT key events report them. */
  const KeyLeft: int := 37
  const KeyUp: int := 38
  const KeyRight: int := 39
  const KeyDown: int := 40
  const KeyA: int := 65
  const KeyD: int := 68
  const KeyS: int := 83
  const KeyW: int := 87

  /**
   * The (opposite, requested) pair the key handler passes on for a key code,
   * or None for every other key, which is ignored.
   */
  function KeyRoute(keyCode: int): (route: Option<(Direction, Direction)>)
    ensures route.Some? <==> keyCode in {KeyUp, KeyW, KeyDown, KeyS, KeyLeft, KeyA, KeyRight, KeyD}
    ensures route.Some? ==> route.value.0 == Opposite(route.value.1)
    ensures route.Some? ==>
              (route.value.1 == Up <==> keyCode in {KeyUp, KeyW}) &&
              (route.value.1 == Down <==> keyCode in {KeyDown, KeyS}) &&
              (route.value.1 == Left <==> keyCode in {KeyLeft, KeyA}) &&
              (route.value.1 == Right <==> keyCode in {KeyRight, KeyD})
  {
    if keyCode == KeyUp || keyCode == KeyW then Some((Down, Up))
    else if keyCode == KeyDown || keyCode == KeyS then Some((Up, Down))
    else if keyCode == KeyLeft || keyCode == KeyA then Some((Right, Left))
    else if keyCode == KeyRight || keyCode == KeyD then Some((Left, Right))
    else None
  }

  /**
   * The handler's effect on the pair (previous, current) of directions: it
   * does nothing when the previous direction is the given opposite; otherwise
   * the current direction becomes the requested one, and the previous one
   * follows it unless it already was equal.
   */
  function Steer(previous: Direction, current: Direction, opposite: Direction, requested: Direction): (r: (Direction, Direction))
    ensures previous == opposite ==> r == (previous, current)
    ensures previous != opposite ==> r == (requested, requested)
  {
    if previous == opposite then (previous, current)
    else if requested == previous then (previous, requested)
    else (requested, requested)
  }

  /**
   * The two directions, equal at the start of a game, stay equal whatever
   * is requested, and a second identical request changes nothing more.
   */
  lemma SteerOutcome(previous: Direction, current: Direction, opposite: Direction, requested: Direction)
    ensures var r := Steer(previous, current, opposite, requested);
            Steer(r.0, r.1, opposite, requested) == r
    ensures previous == current ==> Steer(previous, current, opposite, requested).0 == Steer(previous, current, opposite, requested).1
  {
  }

  /** The snake of two cells at (50, 0) and (25, 0): it has just moved right. */
  const ShortSnake: seq<Position> := [Position(50, 0), Position(25, 0)]

  /**
   * As written, the handler compares a request with the last REQUESTED
   * direction, so two keys pressed within one tick turn the snake around:
   * moving right, Up then Left leaves Left as the direction of the next
   * move, which runs the head into the neck and ends the game.
   */
  lemma DoubleTapReverses(fruit: Position)
    ensures WellFormed(ShortSnake)
    ensures var afterUp := Steer(Right, Right, Down, Up);
            var afterLeft := Steer(afterUp.0, afterUp.1, Right, Left);
            afterLeft == (Left, Left) && Left == Opposite(Right) &&
            Step(ShortSnake, afterLeft.1, fruit).Conflict?
  {
  }

  /**
   * Intended handling: a request is compared with the direction of the last
   * completed move and only changes the pending direction.
   */
  function Propose(committed: Direction, pending: Direction, requested: Direction): Direction {
    if requested == Opposite(committed) then pending else requested
  }

  /** The pending direction after all the requests made between two ticks. */
  function ProposeAll(committed: Direction, pending: Direction, requests: seq<Direction>): Direction
    decreases |requests|
  {
    if requests == [] then pending
    else ProposeAll(committed, Propose(committed, pending, requests[0]), requests[1..])
  }

  /** With the intended handling no sequence of requests makes the pending direction the reverse of the last move. */
  lemma {:induction false} ProposalsNeverReverse(committed: Direction, pending: Direction, requests: seq<Direction>)
    requires pending != Opposite(committed)
    ensures ProposeAll(committed, pending, requests) != Opposite(committed)
    decreases |requests|
  {
    if requests != [] {
      ProposalsNeverReverse(committed, Propose(committed, pending, requests[0]), requests[1..]);
    }
  }

  /**
   * With the intended handling the head never turns into the neck: after a
   * move in direction `committed` the neck is one step behind the head, and
   * whatever keys are pressed before the next tick, the next head is not it.
   */
  lemma {:induction false} NeverIntoNeck(snake: seq<Position>, d: Direction, fruit: Position, requests: seq<Direction>)
    requires |snake| >= 1
    requires Step(snake, d, fruit).Moved? && |Step(snake, d, fruit).body| >= 2
    ensures var body := Step(snake, d, fruit).body;
            NextHead(body[0], ProposeAll(d, d, requests)) != body[1]
  {
    var body := Step(snake, d, fruit).body;
    StepNeck(snake, d, fruit);
    ProposalsNeverReverse(d, d, requests);
    NextHeadInjective(body[0], ProposeAll(d, d, requests), Opposite(d));
  }
}
