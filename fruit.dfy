/**
 * Fruit placement by rejection sampling: each attempt turns two random
 * numbers into a cell and the first cell off the snake is the new fruit.
 */
module Fruit {
  import opened Geometry
  import opened Collision

  /** Exclusive bound handed to the random generator for each coordinate: one icon less than the garden side. */
  const DrawBound: int := GardenWidth - IconSize

  /** The two raw random numbers of one attempt, in the order they are drawn: first the top, then the left coordinate. */
  datatype Draw = Draw(top: int, left: int)

  predicate DrawInRange(d: Draw) {
    0 <= d.top < DrawBound && 0 <= d.left < DrawBound
  }

  predicate DrawsInRange(draws: seq<Draw>) {
    forall i :: 0 <= i < |draws| ==> DrawInRange(draws[i])
  }

  /** A raw random number turned into a pixel coordinate: its remainder modulo the icon size, times the icon size. */
  function FruitCoordinate(raw: int): (c: int)
    requires 0 <= raw
    ensures 0 <= c <= 24 * IconSize && c % IconSize == 0
  {
    raw % IconSize * IconSize
  }

  /** The cell one attempt proposes. */
  function FruitCell(d: Draw): Position
    requires DrawInRange(d)
  {
    Position(FruitCoordinate(d.left), FruitCoordinate(d.top))
  }

  /** Some attempt in `draws` proposes a cell that is not on the snake, so the sampling stops. */
  predicate HasFreeDraw(snake: seq<Position>, draws: seq<Draw>)
    requires DrawsInRange(draws)
  {
    exists i :: 0 <= i < |draws| && FruitCell(draws[i]) !in snake
  }

  /**
   * The fruit chosen from the attempts `draws`: the cell of the first
   * attempt that is not on the snake. It is a grid cell of the garden
   * whose coordinates are at most 600.
   */
  function SpawnFruit(snake: seq<Position>, draws: seq<Draw>): (fruit: Position)
    requires DrawsInRange(draws) && HasFreeDraw(snake, draws)
    ensures fruit !in snake
    ensures InGarden(fruit) && Aligned(fruit)
    ensures fruit.left <= 24 * IconSize && fruit.top <= 24 * IconSize
    ensures exists k :: 0 <= k < |draws| && fruit == FruitCell(draws[k]) &&
                        forall j :: 0 <= j < k ==> FruitCell(draws[j]) in snake
    decreases |draws|
  {
    if FruitCell(draws[0]) !in snake then
      FruitCell(draws[0])
    else
      assert DrawsInRange(draws[1..]);
      assert HasFreeDraw(snake, draws[1..]) by {
        var i :| 0 <= i < |draws| && FruitCell(draws[i]) !in snake;
        assert draws[1..][i - 1] == draws[i];
      }
      var fruit := SpawnFruit(snake, draws[1..]);
      assert exists k :: 0 <= k < |draws| && fruit == FruitCell(draws[k]) &&
                         forall j :: 0 <= j < k ==> FruitCell(draws[j]) in snake by {
        var k :| 0 <= k < |draws[1..]| && fruit == FruitCell(draws[1..][k]) &&
                 forall j :: 0 <= j < k ==> FruitCell(draws[1..][j]) in snake;
        assert forall j :: 1 <= j < k + 1 ==> draws[j] == draws[1..][j - 1];
      }
      fruit
  }

  /** The cell at the lower-right corner of the garden, a legal grid cell. */
  const Corner: Position := Position(GardenWidth - IconSize, GardenHeight - IconSize)

  /**
   * As written, no attempt can propose a coordinate above 600, so the last
   * five columns and rows of the garden (the corner cell among them) never
   * receive a fruit.
   */
  lemma FruitMissesLastColumns(d: Draw)
    requires DrawInRange(d)
    ensures InGarden(Corner) && Aligned(Corner)
    ensures FruitCell(d).left < GardenWidth - 5 * IconSize
    ensures FruitCell(d).top < GardenHeight - 5 * IconSize
    ensures FruitCell(d) != Corner
  {
  }

  /** Intended placement: one random column or row index out of the garden's 30, times the icon size. */
  function IntendedFruitCoordinate(raw: int): int
    requires 0 <= raw < Columns
  {
    raw * IconSize
  }

  /** The intended placement reaches exactly the coordinates of the garden's grid cells, each of them. */
  lemma IntendedFruitCoversGarden(c: int)
    ensures (exists raw :: 0 <= raw < Columns && IntendedFruitCoordinate(raw) == c) <==>
              (0 <= c && c + IconSize <= GardenWidth && c % IconSize == 0)
  {
    if 0 <= c && c + IconSize <= GardenWidth && c % IconSize == 0 {
      assert IntendedFruitCoordinate(c / IconSize) == c;
    }
  }
}
