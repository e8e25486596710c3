/**
 * Neighbour selection (`get_similar_users`, app.py).
 *
 * A similarity matrix is given as a sequence of rows; row `u - 1` holds the
 * similarity of learner `u` to every learner, by 0-based column position.
 * NumPy's `argsort` is not stable, so the order it gives among equal entries
 * is unspecified: `IsArgSort` says what any admissible result is, `ArgSort`
 * is one concrete sort proved to be admissible, and `IsTopSet` says which
 * sets of columns may come out of "take the three largest".
 */
module Neighbours {

  type Row = seq<real>
  type Matrix = seq<Row>

  /** Number of columns taken from each matrix row (`argsort()[-3:]`). */
  const PerMatrix: nat := 3

  function Min(a: int, b: int): int { if a <= b then a else b }

  function Max(a: int, b: int): int { if a <= b then b else a }

  predicate Distinct(s: seq<int>) {
    forall i, j :: 0 <= i < j < |s| ==> s[i] != s[j]
  }

  function Elems(s: seq<int>): set<int> {
    set x | x in s
  }

  /** Every entry of `p` is a column position of a row of length `n`. */
  predicate IndicesIn(p: seq<int>, n: int) {
    forall i :: 0 <= i < |p| ==> 0 <= p[i] < n
  }

  /** `p` lists columns in ascending order of their entries in `row`. */
  predicate SortedBy(row: Row, p: seq<int>)
    requires IndicesIn(p, |row|)
  {
    forall i, j :: 0 <= i < j < |p| ==> row[p[i]] <= row[p[j]]
  }

  /** What `row.argsort()` may return: a permutation of the columns that orders the row ascending. */
  predicate IsArgSort(row: Row, p: seq<int>) {
    && |p| == |row|
    && IndicesIn(p, |row|)
    && Distinct(p)
    && (forall c :: 0 <= c < |row| ==> c in p)
    && SortedBy(row, p)
  }

  /** What "the k largest entries of row" may be: min(k, |row|) columns, none smaller than a column left out. */
  predicate IsTopSet(row: Row, chosen: set<int>, k: nat) {
    && (forall c :: c in chosen ==> 0 <= c < |row|)
    && |chosen| == Min(k, |row|)
    && (forall c, d {:trigger c in chosen, d in chosen} :: c in chosen && 0 <= d < |row| && d !in chosen ==> row[d] <= row[c])
  }

  /** Columns whose entry is strictly greater than column `c`'s. */
  function Above(row: Row, c: int): set<int>
    requires 0 <= c < |row|
  {
    set d | 0 <= d < |row| && row[d] > row[c]
  }

  lemma DistinctCons(x: int, s: seq<int>)
    requires Distinct(s) && x !in s
    ensures Distinct([x] + s)
  {
  }

  lemma SubsetCard(a: set<int>, b: set<int>)
    requires a <= b
    ensures |a| <= |b|
  {
    assert b == a + (b - a);
  }

  lemma RemoveOneCard(s: set<int>, x: int)
    requires x in s
    ensures |s - {x}| == |s| - 1
  {
  }

  /** A sequence without repeats has as many elements as its set. */
  lemma {:induction false} DistinctCard(s: seq<int>)
    requires Distinct(s)
    ensures |Elems(s)| == |s|
  {
    if s != [] {
      DistinctCard(s[1..]);
      assert Elems(s) == {s[0]} + Elems(s[1..]);
      assert s[0] !in Elems(s[1..]);
    }
  }

  /** Places column `x` into the ascending list `p`, after every column whose entry is not greater. */
  function Insert(row: Row, x: int, p: seq<int>): (r: seq<int>)
    requires 0 <= x < |row| && IndicesIn(p, |row|)
    ensures |r| == |p| + 1 && IndicesIn(r, |row|)
    ensures forall y :: y in r <==> y == x || y in p
  {
    if p == [] || row[x] < row[p[0]] then [x] + p
    else [p[0]] + Insert(row, x, p[1..])
  }

  lemma {:induction false} InsertSorted(row: Row, x: int, p: seq<int>)
    requires 0 <= x < |row| && IndicesIn(p, |row|) && SortedBy(row, p)
    ensures SortedBy(row, Insert(row, x, p))
  {
    if p != [] && row[x] >= row[p[0]] {
      var rest := Insert(row, x, p[1..]);
      InsertSorted(row, x, p[1..]);
      forall i | 0 <= i < |rest| ensures row[p[0]] <= row[rest[i]] {
        assert rest[i] in rest;
        if rest[i] != x {
          var j :| 0 <= j < |p[1..]| && p[1..][j] == rest[i];
          assert p[j + 1] == rest[i];
        }
      }
    }
  }

  lemma {:induction false} InsertDistinct(row: Row, x: int, p: seq<int>)
    requires 0 <= x < |row| && IndicesIn(p, |row|) && Distinct(p) && x !in p
    ensures Distinct(Insert(row, x, p))
  {
    if p == [] || row[x] < row[p[0]] {
      DistinctCons(x, p);
    } else {
      InsertDistinct(row, x, p[1..]);
      DistinctCons(p[0], Insert(row, x, p[1..]));
    }
  }

  /** Insertion sort of the first `n` columns by their entries. */
  function ArgSortFirst(row: Row, n: nat): (p: seq<int>)
    requires n <= |row|
    ensures |p| == n && IndicesIn(p, |row|)
    ensures forall c :: c in p <==> 0 <= c < n
    ensures Distinct(p) && SortedBy(row, p)
  {
    if n == 0 then []
    else
      var p := ArgSortFirst(row, n - 1);
      InsertSorted(row, n - 1, p);
      InsertDistinct(row, n - 1, p);
      Insert(row, n - 1, p)
  }

  /** One admissible `row.argsort()`: ties keep column order. */
  function ArgSort(row: Row): (p: seq<int>)
    ensures IsArgSort(row, p)
  {
    ArgSortFirst(row, |row|)
  }

  /** The last `k` entries of `s`, or all of `s` when it is shorter (`s[-k:]`). */
  function LastK(s: seq<int>, k: nat): seq<int> {
    if |s| <= k then s else s[|s| - k..]
  }

  /** `s[::-1]` */
  function Reversed(s: seq<int>): (r: seq<int>)
    ensures |r| == |s|
    ensures forall i :: 0 <= i < |s| ==> r[i] == s[|s| - 1 - i]
  {
    if s == [] then [] else Reversed(s[1..]) + [s[0]]
  }

  /** Whatever admissible order argsort picks, its last k columns are a top-k set. */
  lemma ArgSortTop(row: Row, p: seq<int>, k: nat)
    requires IsArgSort(row, p)
    ensures IsTopSet(row, Elems(LastK(p, k)), k)
  {
    var top := LastK(p, k);
    var start := |p| - |top|;
    assert top == p[start..];
    DistinctCard(top);
    assert forall a :: start <= a < |p| ==> p[a] in Elems(top) by {
      forall a | start <= a < |p| ensures p[a] in Elems(top) {
        assert top[a - start] == p[a];
      }
    }
    forall c, d | c in Elems(top) && 0 <= d < |row| && d !in Elems(top)
      ensures row[d] <= row[c]
    {
      var b :| start <= b < |p| && p[b] == c;
      assert d in p;
      var a :| 0 <= a < |p| && p[a] == d;
    }
  }

  /** The form of the top-k property that does not mention the columns left out: a chosen column has fewer than k strictly greater ones. */
  lemma TopSetFewerAbove(row: Row, chosen: set<int>, k: nat, c: int)
    requires IsTopSet(row, chosen, k) && c in chosen
    ensures 0 <= c < |row| && |Above(row, c)| < k
  {
    assert Above(row, c) <= chosen - {c};
    SubsetCard(Above(row, c), chosen - {c});
  }

  lemma {:induction false} ReversedOf(s: seq<int>)
    ensures Elems(Reversed(s)) == Elems(s)
    ensures Distinct(s) ==> Distinct(Reversed(s))
  {
    var r := Reversed(s);
    forall c | c in s ensures c in r {
      var i :| 0 <= i < |s| && s[i] == c;
      assert r[|s| - 1 - i] == c;
    }
  }

  /** The largest `k` columns as argsort leaves them: at the end, ascending, without repeats. */
  lemma LastKOf(row: Row, p: seq<int>, k: nat)
    requires IsArgSort(row, p)
    ensures |LastK(p, k)| == Min(k, |row|)
    ensures IndicesIn(LastK(p, k), |row|) && Distinct(LastK(p, k))
    ensures SortedBy(row, LastK(p, k))
  {
  }


  /** The three columns with the largest entries, largest first: `row.argsort()[-3:][::-1]`. */
  function TopColumns(row: Row): (top: seq<int>)
    ensures |top| == Min(PerMatrix, |row|) && IndicesIn(top, |row|) && Distinct(top)
    ensures forall i, j :: 0 <= i < j < |top| ==> row[top[i]] >= row[top[j]]
    ensures IsTopSet(row, Elems(top), PerMatrix)
  {
    var p := ArgSort(row);
    var last := LastK(p, PerMatrix);
    LastKOf(row, p, PerMatrix);
    ArgSortTop(row, p, PerMatrix);
    ReversedOf(last);
    Reversed(last)
  }

  /** Every column plus one: `indices + 1` on a NumPy array. */
  function PlusOne(s: seq<int>): (r: seq<int>)
    ensures |r| == |s| && forall i :: 0 <= i < |s| ==> r[i] == s[i] + 1
  {
    if s == [] then [] else [s[0] + 1] + PlusOne(s[1..])
  }

  lemma PlusOneOf(s: seq<int>)
    ensures forall id :: id in PlusOne(s) <==> id - 1 in s
    ensures Distinct(s) ==> Distinct(PlusOne(s))
  {
  }


  /** The 1-based ids of the three learners most similar in `row` (`TopColumns(row) + 1`). */
  function TopIds(row: Row): (ids: seq<int>)
    ensures |ids| == Min(PerMatrix, |row|) && Distinct(ids)
    ensures forall i :: 0 <= i < |ids| ==> 1 <= ids[i] <= |row|
    ensures forall id :: id in ids <==> id - 1 in TopColumns(row)
  {
    var top := TopColumns(row);
    var ids := PlusOne(top);
    PlusOneOf(top);
    ids
  }

  /** `[i for i in ids if i != x]` */
  function Without(ids: seq<int>, x: int): (r: seq<int>)
    ensures forall y :: y in r <==> y in ids && y != x
    ensures Distinct(ids) ==> Distinct(r)
  {
    if ids == [] then []
    else
      var rest := Without(ids[1..], x);
      if ids[0] == x then rest
      else
        assert Distinct(ids) ==> Distinct([ids[0]] + rest) by {
          if Distinct(ids) { DistinctCons(ids[0], rest); }
        }
        [ids[0]] + rest
  }

  /** The members of `s` between `lo` and `hi`, ascending: one listing of a set of ids. */
  function Listing(s: set<int>, lo: int, hi: int): (r: seq<int>)
    ensures forall y :: y in r <==> y in s && lo <= y <= hi
    ensures forall i, j :: 0 <= i < j < |r| ==> r[i] < r[j]
    decreases hi - lo
  {
    if lo > hi then []
    else
      var rest := Listing(s, lo + 1, hi);
      assert forall i :: 0 <= i < |rest| ==> lo < rest[i] by {
        forall i | 0 <= i < |rest| ensures lo < rest[i] { assert rest[i] in rest; }
      }
      if lo in s then [lo] + rest else rest
  }

  /**
   * `get_similar_users`: the union of the top ids of the learner's row in
   * both matrices, without the learner. The order of the list Python builds
   * from the set is not part of its meaning; this model lists it ascending.
   */
  function GetSimilarUsers(userId: int, youtube: Matrix, nptel: Matrix): (similar: seq<int>)
    requires 1 <= userId <= |youtube| && 1 <= userId <= |nptel|
    ensures userId !in similar && Distinct(similar)
    ensures forall i :: 0 <= i < |similar| ==>
      1 <= similar[i] <= Max(|youtube[userId - 1]|, |nptel[userId - 1]|)
    ensures forall id :: id in similar <==>
      id != userId && (id in TopIds(youtube[userId - 1]) || id in TopIds(nptel[userId - 1]))
  {
    var youtubeIds := TopIds(youtube[userId - 1]);
    var nptelIds := TopIds(nptel[userId - 1]);
    var union := Elems(youtubeIds) + Elems(nptelIds);
    var listed := Listing(union, 1, Max(|youtube[userId - 1]|, |nptel[userId - 1]|));
    var similar := Without(listed, userId);
    assert forall i :: 0 <= i < |similar| ==> similar[i] in listed by {
      forall i | 0 <= i < |similar| ensures similar[i] in listed {
        assert similar[i] in similar;
      }
    }
    similar
  }

  /** Each matrix has one row and one column per learner. */
  predicate IsSquare(m: Matrix, n: nat) {
    |m| == n && forall i :: 0 <= i < |m| ==> |m[i]| == n
  }

  /** At most three ids come from each matrix, so at most six neighbours. */
  lemma NeighbourCount(userId: int, youtube: Matrix, nptel: Matrix)
    requires 1 <= userId <= |youtube| && 1 <= userId <= |nptel|
    ensures |GetSimilarUsers(userId, youtube, nptel)| <= 2 * PerMatrix
  {
    var similar := GetSimilarUsers(userId, youtube, nptel);
    var youtubeIds := TopIds(youtube[userId - 1]);
    var nptelIds := TopIds(nptel[userId - 1]);
    DistinctCard(similar);
    DistinctCard(youtubeIds);
    DistinctCard(nptelIds);
    SubsetCard(Elems(similar), Elems(youtubeIds) + Elems(nptelIds));
  }

  /** With both matrices N by N, every neighbour is a learner id in 1..N. */
  lemma NeighboursInRange(userId: int, youtube: Matrix, nptel: Matrix, n: nat)
    requires IsSquare(youtube, n) && IsSquare(nptel, n) && 1 <= userId <= n
    ensures forall id :: id in GetSimilarUsers(userId, youtube, nptel) ==> 1 <= id <= n
  {
  }

  /** A top id has fewer than three learners strictly more similar in its row. */
  lemma TopIdFewerAbove(row: Row, id: int)
    requires id in TopIds(row)
    ensures 1 <= id <= |row| && |Above(row, id - 1)| < PerMatrix
  {
    var top := TopColumns(row);
    var c := id - 1;
    assert c in top;
    assert c in Elems(top);
    TopSetFewerAbove(row, Elems(top), PerMatrix, c);
  }

  /**
   * Every neighbour has fewer than three learners strictly more similar to
   * the query learner, in the YouTube row or in the NPTEL row.
   */
  lemma NeighboursFewerAbove(userId: int, youtube: Matrix, nptel: Matrix)
    requires 1 <= userId <= |youtube| && 1 <= userId <= |nptel|
    ensures forall id :: id in GetSimilarUsers(userId, youtube, nptel) ==>
      (1 <= id <= |youtube[userId - 1]| && |Above(youtube[userId - 1], id - 1)| < PerMatrix) ||
      (1 <= id <= |nptel[userId - 1]| && |Above(nptel[userId - 1], id - 1)| < PerMatrix)
  {
    var youtubeRow, nptelRow := youtube[userId - 1], nptel[userId - 1];
    forall id | id in GetSimilarUsers(userId, youtube, nptel)
      ensures (1 <= id <= |youtubeRow| && |Above(youtubeRow, id - 1)| < PerMatrix) ||
              (1 <= id <= |nptelRow| && |Above(nptelRow, id - 1)| < PerMatrix)
    {
      if id in TopIds(youtubeRow) {
        TopIdFewerAbove(youtubeRow, id);
      } else {
        TopIdFewerAbove(nptelRow, id);
      }
    }
  }

  /** Column `c` of `row` is strictly greater than every other column. */
  predicate StrictMaxAt(row: Row, c: int) {
    0 <= c < |row| && forall d :: 0 <= d < |row| && d != c ==> row[d] < row[c]
  }

  /** A column strictly greater than all others is always among the top ones. */
  lemma StrictMaxIsTop(row: Row, c: int)
    requires StrictMaxAt(row, c)
    ensures c + 1 in TopIds(row)
  {
    var chosen := Elems(TopColumns(row));
    assert c in chosen;
  }

  /** A row whose own column is its strict maximum yields at most two other ids. */
  lemma OthersInTop(row: Row, userId: int)
    requires StrictMaxAt(row, userId - 1)
    ensures |Elems(TopIds(row)) - {userId}| <= PerMatrix - 1
  {
    StrictMaxIsTop(row, userId - 1);
    DistinctCard(TopIds(row));
    RemoveOneCard(Elems(TopIds(row)), userId);
  }

  /**
   * When the query learner is strictly the most similar to itself in both
   * rows (the usual case for a similarity matrix), each matrix contributes at
   * most two neighbours.
   */
  lemma NeighbourCountSelfFirst(userId: int, youtube: Matrix, nptel: Matrix)
    requires 1 <= userId <= |youtube| && 1 <= userId <= |nptel|
    requires StrictMaxAt(youtube[userId - 1], userId - 1) && StrictMaxAt(nptel[userId - 1], userId - 1)
    ensures |GetSimilarUsers(userId, youtube, nptel)| <= 2 * (PerMatrix - 1)
  {
    var similar := GetSimilarUsers(userId, youtube, nptel);
    var fromYoutube := Elems(TopIds(youtube[userId - 1])) - {userId};
    var fromNptel := Elems(TopIds(nptel[userId - 1])) - {userId};
    OthersInTop(youtube[userId - 1], userId);
    OthersInTop(nptel[userId - 1], userId);
    assert Elems(similar) <= fromYoutube + fromNptel by {
      forall id | id in Elems(similar) ensures id in fromYoutube + fromNptel {
        assert id in similar;
      }
    }
    DistinctCard(similar);
    SubsetCard(Elems(similar), fromYoutube + fromNptel);
  }
}
