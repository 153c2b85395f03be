/** Counting grid cells: a snake of distinct garden cells is at most as long as the garden has cells. */
module GridCount {
  import opened Geometry
  import opened Collision
  import opened Movement

  /** Column-major index of a grid cell of the garden: column first, then row. */
  function CellIndex(p: Position): int {
    p.left / IconSize * Rows + p.top / IconSize
  }

  lemma CellIndexBounds(p: Position)
    requires InGarden(p)
    ensures 0 <= CellIndex(p) < Columns * Rows
  {
    var a, b := p.left / IconSize, p.top / IconSize;
    assert 0 <= a < Columns && 0 <= b < Rows;
    assert a * Rows <= (Columns - 1) * Rows;
  }

  /** Two grid cells of the garden with the same index are the same cell. */
  lemma CellIndexInjective(p: Position, q: Position)
    requires InGarden(p) && Aligned(p) && InGarden(q) && Aligned(q)
    requires CellIndex(p) == CellIndex(q)
    ensures p == q
  {
    ColumnMajorUnique(p.left / IconSize, p.top / IconSize, q.left / IconSize, q.top / IconSize);
    OnGrid(p.left);
    OnGrid(q.left);
    OnGrid(p.top);
    OnGrid(q.top);
  }

  lemma ColumnMajorUnique(a: int, b: int, c: int, e: int)
    requires 0 <= b < Rows && 0 <= e < Rows
    requires a * Rows + b == c * Rows + e
    ensures a == c && b == e
  {
    assert (a - c) * Rows == e - b;
  }

  lemma OnGrid(x: int)
    requires x % IconSize == 0
    ensures x == x / IconSize * IconSize
  {
  }

  /** Pigeonhole: pairwise distinct numbers drawn from 0 .. n-1 are at most n. */
  lemma {:induction false} DistinctBelow(s: seq<int>, n: nat)
    requires forall i :: 0 <= i < |s| ==> 0 <= s[i] < n
    requires forall i, j :: 0 <= i < j < |s| ==> s[i] != s[j]
    ensures |s| <= n
  {
    if |s| > 0 {
      assert 0 <= s[0] < n;
      if k :| 0 <= k < |s| && s[k] == n - 1 {
        var rest := s[..k] + s[k + 1..];
        assert forall i :: 0 <= i < |rest| ==> rest[i] == if i < k then s[i] else s[i + 1];
        DistinctBelow(rest, n - 1);
      } else {
        DistinctBelow(s, n - 1);
      }
    }
  }

  /**
   * A well-formed snake covers at most the 900 cells of the garden, so its
   * length, and with it the score, stays far below the 32-bit limit.
   */
  lemma {:induction false} LengthBound(snake: seq<Position>)
    requires WellFormed(snake)
    ensures |snake| <= Columns * Rows
  {
    var idx := seq(|snake|, i requires 0 <= i < |snake| => CellIndex(snake[i]));
    forall i | 0 <= i < |idx|
      ensures 0 <= idx[i] < Columns * Rows
    {
      CellIndexBounds(snake[i]);
    }
    forall i, j | 0 <= i < j < |idx|
      ensures idx[i] != idx[j]
    {
      if idx[i] == idx[j] {
        CellIndexInjective(snake[i], snake[j]);
      }
    }
    DistinctBelow(idx, Columns * Rows);
  }
}
