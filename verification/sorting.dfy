/** A sort by an integer key, used for List.Sort with a key-based comparer. */
module Sorting {

  predicate SortedBy<T>(xs: seq<T>, key: T -> int)
  {
    forall i, j | 0 <= i < j < |xs| :: key(xs[i]) <= key(xs[j])
  }

  /** Places x in front of the first element whose key is not below x's. */
  function InsertBy<T>(x: T, sorted: seq<T>, key: T -> int): (r: seq<T>)
    requires SortedBy(sorted, key)
    ensures multiset(r) == multiset(sorted) + multiset{x}
    ensures SortedBy(r, key)
    ensures |r| > 0 && (r[0] == x || (|sorted| > 0 && r[0] == sorted[0]))
  {
    if |sorted| == 0 then [x]
    else if key(x) <= key(sorted[0]) then [x] + sorted
    else
      var h := sorted[0];
      var tail := InsertBy(x, sorted[1..], key);
      assert sorted == [h] + sorted[1..];
      assert key(h) <= key(tail[0]);
      [h] + tail
  }

  /** Insertion sort by key. */
  function SortBy<T>(xs: seq<T>, key: T -> int): (r: seq<T>)
    ensures multiset(r) == multiset(xs)
    ensures SortedBy(r, key)
  {
    if |xs| == 0 then []
    else
      assert xs == [xs[0]] + xs[1..];
      InsertBy(xs[0], SortBy(xs[1..], key), key)
  }

  lemma InsertMembers<T>(x: T, sorted: seq<T>, key: T -> int, y: T)
    requires SortedBy(sorted, key)
    requires y in InsertBy(x, sorted, key)
    ensures y == x || y in sorted
  {
    assert y in multiset(InsertBy(x, sorted, key));
  }
}
