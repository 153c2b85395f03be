/**
 * The history of finished games: records ordered by the records' own
 * comparison (higher score first) and shown as at most twenty ranked rows.
 */
module Ranking {

  /** One finished game: its score, the difficulty label it was played at, and the time it ended (milliseconds). */
  datatype History = History(score: int, mode: string, date: int)

  /**
   * The records' comparison: -1 (comes first) when this record scored
   * strictly more, 1 otherwise, for equal scores in both directions and
   * even for a record compared with itself.
   */
  function CompareTo(a: History, b: History): (c: int)
    ensures c == -1 || c == 1
    ensures c < 0 <==> a.score > b.score
  {
    if a.score > b.score then -1 else 1
  }

  /**
   * The comparison is not a lawful total order: on equal scores it answers 1
   * both ways, so sgn(a.compareTo(b)) == -sgn(b.compareTo(a)) fails, and a
   * record is not equal to itself under it.
   */
  lemma CompareToUnlawfulOnTies(a: History, b: History)
    requires a.score == b.score
    ensures CompareTo(a, b) == CompareTo(b, a) == 1
    ensures CompareTo(a, a) != 0
  {
  }

  /** Scores never increase along the sequence. */
  predicate SortedByScore(s: seq<History>) {
    forall i, j :: 0 <= i < j < |s| ==> s[i].score >= s[j].score
  }

  /**
   * Insert `x` into a sorted run the way the library's insertion step does:
   * it goes before the first record that compares greater, that is, after
   * every record whose score is at least its own.
   */
  function InsertRanked(sorted: seq<History>, x: History): (r: seq<History>)
    ensures multiset(r) == multiset(sorted) + multiset{x}
    ensures |r| == |sorted| + 1
    ensures r[0] == x || (sorted != [] && r[0] == sorted[0])
  {
    if sorted == [] then [x]
    else if CompareTo(x, sorted[0]) < 0 then [x] + sorted
    else
      assert sorted == [sorted[0]] + sorted[1..];
      [sorted[0]] + InsertRanked(sorted[1..], x)
  }

  /** Inserting into a sorted run keeps it sorted. */
  lemma {:induction false} InsertRankedSorted(sorted: seq<History>, x: History)
    requires SortedByScore(sorted)
    ensures SortedByScore(InsertRanked(sorted, x))
  {
    if sorted != [] && CompareTo(x, sorted[0]) >= 0 {
      var rest := InsertRanked(sorted[1..], x);
      InsertRankedSorted(sorted[1..], x);
      var r := InsertRanked(sorted, x);
      assert r == [sorted[0]] + rest;
      assert sorted[0].score >= rest[0].score;
      forall i, j | 0 <= i < j < |r|
        ensures r[i].score >= r[j].score
      {
        if i == 0 {
          assert r[j] == rest[j - 1];
          assert j - 1 == 0 || rest[0].score >= rest[j - 1].score;
        } else {
          assert r[i] == rest[i - 1] && r[j] == rest[j - 1];
        }
      }
    }
  }

  /**
   * The history list after sorting: the records in order of non-increasing
   * score, a permutation of the input. Nothing is promised about the order
   * of records with equal scores.
   */
  function SortByScore(s: seq<History>): (r: seq<History>)
    ensures SortedByScore(r)
    ensures multiset(r) == multiset(s)
  {
    if s == [] then []
    else
      assert s == s[..|s| - 1] + [s[|s| - 1]];
      InsertRankedSorted(SortByScore(s[..|s| - 1]), s[|s| - 1]);
      InsertRanked(SortByScore(s[..|s| - 1]), s[|s| - 1])
  }

  /** Records with scores 10, 7 and 10 sort with both tens ahead of the seven. */
  lemma TiesAheadOfLower(a: History, b: History, c: History)
    requires a.score == 10 && b.score == 7 && c.score == 10
    ensures var r := SortByScore([a, b, c]);
            |r| == 3 && r[2] == b && multiset(r[..2]) == multiset{a, c}
  {
    SortTwoInOrder(a, b);
    InsertTieAfter(a, b, c);
    assert [a, b, c][..2] == [a, b];
    assert SortByScore([a, b, c]) == [a, c, b];
    assert [a, c, b][..2] == [a, c];
  }

  lemma SortTwoInOrder(a: History, b: History)
    requires a.score >= b.score
    ensures SortByScore([a, b]) == [a, b]
  {
    assert [a][..0] == [] && [a][1..] == [];
    assert SortByScore([a]) == [a];
    assert [a, b][..1] == [a];
    assert CompareTo(b, a) == 1;
    assert InsertRanked([a], b) == [a] + InsertRanked([], b);
  }

  lemma InsertTieAfter(a: History, b: History, c: History)
    requires c.score == a.score > b.score
    ensures InsertRanked([a, b], c) == [a, c, b]
  {
    assert CompareTo(c, b) < 0 && CompareTo(c, a) == 1;
    assert InsertRanked([b], c) == [c, b];
    assert [a, b][1..] == [b];
    assert InsertRanked([a, b], c) == [a] + InsertRanked([b], c);
  }

  /** The number of rows the history panel shows at most. */
  const MaxRows: int := 20

  /** One displayed row: the rank (counted from 1) and the record's fields. */
  datatype Row = Row(rank: int, score: int, mode: string, date: int)

  /**
   * The rows for the first twenty records of a list (fewer when the list is
   * shorter): the i-th row carries rank i + 1 and the i-th record's fields.
   */
  method RankedRows(sorted: seq<History>) returns (rows: seq<Row>)
    ensures |rows| == if |sorted| < MaxRows then |sorted| else MaxRows
    ensures forall i :: 0 <= i < |rows| ==>
              rows[i] == Row(i + 1, sorted[i].score, sorted[i].mode, sorted[i].date)
  {
    rows := [];
    var i := 0;
    while i < |sorted| && i < MaxRows
      invariant 0 <= i <= |sorted| && i <= MaxRows
      invariant |rows| == i
      invariant forall k :: 0 <= k < i ==> rows[k] == Row(k + 1, sorted[k].score, sorted[k].mode, sorted[k].date)
    {
      var h := sorted[i];
      rows := rows + [Row(i + 1, h.score, h.mode, h.date)];
      i := i + 1;
    }
  }

  /** Rows taken from a sorted history show non-increasing scores under increasing ranks. */
  lemma RankedRowsOrdered(sorted: seq<History>, rows: seq<Row>)
    requires SortedByScore(sorted)
    requires |rows| <= |sorted|
    requires forall i :: 0 <= i < |rows| ==> rows[i] == Row(i + 1, sorted[i].score, sorted[i].mode, sorted[i].date)
    ensures forall i, j :: 0 <= i < j < |rows| ==> rows[i].rank < rows[j].rank && rows[i].score >= rows[j].score
  {
  }
}
