/**
 * Java's List.sort with a comparator, modelled as a stable insertion sort
 * by an integer rank: two elements compare equal exactly when their ranks
 * are equal. Both the pattern comparator of the URL handler mapping and
 * the order comparator of the post-processor pipeline are given this way.
 */
module OrderSort {

  predicate SortedByRank<T>(s: seq<T>, rank: T -> int) {
    forall i, j :: 0 <= i < j < |s| ==> rank(s[i]) <= rank(s[j])
  }

  /** Inserts `x` before the first element whose rank is not smaller. */
  function Insert<T>(x: T, s: seq<T>, rank: T -> int): (r: seq<T>)
    requires SortedByRank(s, rank)
    ensures SortedByRank(r, rank) && |r| == |s| + 1
    ensures |s| > 0 && rank(x) <= rank(s[0]) ==> r == [x] + s
    ensures |s| > 0 && rank(x) > rank(s[0]) ==> r[0] == s[0]
    ensures forall k :: 0 <= k < |r| ==> rank(x) <= rank(r[k]) || (|s| > 0 && rank(s[0]) <= rank(r[k]))
  {
    if |s| == 0 then [x]
    else if rank(x) <= rank(s[0]) then [x] + s
    else
      var rest := Insert(x, s[1..], rank);
      ConsSorted(s[0], rest, rank);
      [s[0]] + rest
  }

  /** A sorted sequence stays sorted behind a head of no greater rank. */
  lemma ConsSorted<T>(h: T, s: seq<T>, rank: T -> int)
    requires SortedByRank(s, rank)
    requires forall k :: 0 <= k < |s| ==> rank(h) <= rank(s[k])
    ensures SortedByRank([h] + s, rank)
  {
    forall i, j | 0 <= i < j < |s| + 1 ensures rank(([h] + s)[i]) <= rank(([h] + s)[j]) {
      if i > 0 {
        assert ([h] + s)[i] == s[i - 1];
      }
    }
  }

  /** Inserting adds exactly `x` and loses nothing. */
  lemma {:induction false} InsertPermutes<T>(x: T, s: seq<T>, rank: T -> int)
    requires SortedByRank(s, rank)
    ensures multiset(Insert(x, s, rank)) == multiset(s) + multiset{x}
    decreases |s|
  {
    if |s| > 0 && rank(x) > rank(s[0]) {
      InsertPermutes(x, s[1..], rank);
      assert s == [s[0]] + s[1..];
    }
  }

  /** The sort: a stable permutation ordered by rank. */
  function SortByRank<T>(xs: seq<T>, rank: T -> int): (r: seq<T>)
    ensures SortedByRank(r, rank)
    ensures multiset(r) == multiset(xs)
    ensures |r| == |xs|
    ensures |xs| <= 1 ==> r == xs
  {
    if |xs| == 0 then []
    else
      assert xs == [xs[0]] + xs[1..];
      InsertPermutes(xs[0], SortByRank(xs[1..], rank), rank);
      Insert(xs[0], SortByRank(xs[1..], rank), rank)
  }

  /** The first element, in the original order, among those of least rank. */
  function FirstMinimal<T>(xs: seq<T>, rank: T -> int): (m: T)
    requires |xs| > 0
    ensures m in xs
    ensures forall i :: 0 <= i < |xs| ==> rank(m) <= rank(xs[i])
    ensures exists j :: 0 <= j < |xs| && xs[j] == m && forall i :: 0 <= i < j ==> rank(xs[i]) > rank(m)
  {
    if |xs| == 1 then
      assert xs[0] == xs[0];
      xs[0]
    else
      var m := FirstMinimal(xs[1..], rank);
      assert forall i :: 1 <= i < |xs| ==> xs[i] == xs[1..][i - 1];
      if rank(xs[0]) <= rank(m) then
        assert xs[0] == xs[0];
        xs[0]
      else
        assert exists j :: 0 <= j < |xs| && xs[j] == m && forall i :: 0 <= i < j ==> rank(xs[i]) > rank(m) by {
          var j :| 0 <= j < |xs[1..]| && xs[1..][j] == m && forall i :: 0 <= i < j ==> rank(xs[1..][i]) > rank(m);
          assert xs[j + 1] == m;
        }
        m
  }

  /**
   * Stability, as far as the head is concerned: the first element after
   * sorting is the earliest of the least-ranked elements.
   */
  lemma {:induction false} SortHeadIsFirstMinimal<T>(xs: seq<T>, rank: T -> int)
    requires |xs| > 0
    ensures SortByRank(xs, rank)[0] == FirstMinimal(xs, rank)
    decreases |xs|
  {
    if |xs| > 1 {
      SortHeadIsFirstMinimal(xs[1..], rank);
    }
  }

  /** Sorting keeps the elements. */
  lemma SortKeepsElements<T>(xs: seq<T>, rank: T -> int, x: T)
    ensures x in SortByRank(xs, rank) <==> x in xs
  {
    assert x in SortByRank(xs, rank) <==> x in multiset(SortByRank(xs, rank));
    assert x in xs <==> x in multiset(xs);
  }
}
