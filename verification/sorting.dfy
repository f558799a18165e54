/** Stable sorting by an integer key, as `list.sort(key=...)` does it, and
    filtering a list by a condition, for lists of any element type. */
module Sorting {

  predicate SortedBy<T>(vs: seq<T>, key: T -> int) {
    forall i, j | 0 <= i < j < |vs| :: key(vs[i]) <= key(vs[j])
  }

  /** Put `v` after every leading element whose key is not larger. */
  function Insert<T>(v: T, sorted: seq<T>, key: T -> int): seq<T> {
    if sorted == [] then [v]
    else if key(v) < key(sorted[0]) then [v] + sorted
    else [sorted[0]] + Insert(v, sorted[1..], key)
  }

  lemma {:induction false} InsertPermutes<T>(v: T, sorted: seq<T>, key: T -> int)
    ensures multiset(Insert(v, sorted, key)) == multiset(sorted) + multiset{v}
  {
    if sorted != [] && key(v) >= key(sorted[0]) {
      InsertPermutes(v, sorted[1..], key);
      assert sorted == [sorted[0]] + sorted[1..];
    }
  }

  /** A bound below `v` and every element is below every element after
      insertion. */
  lemma {:induction false} InsertBounded<T>(v: T, sorted: seq<T>, key: T -> int, b: int)
    requires b <= key(v)
    requires forall i | 0 <= i < |sorted| :: b <= key(sorted[i])
    ensures forall i | 0 <= i < |Insert(v, sorted, key)| :: b <= key(Insert(v, sorted, key)[i])
  {
    if sorted != [] && key(v) >= key(sorted[0]) {
      InsertBounded(v, sorted[1..], key, b);
    }
  }

  lemma {:induction false} InsertSorted<T>(v: T, sorted: seq<T>, key: T -> int)
    requires SortedBy(sorted, key)
    ensures SortedBy(Insert(v, sorted, key), key)
  {
    if sorted != [] && key(v) >= key(sorted[0]) {
      InsertSorted(v, sorted[1..], key);
      InsertBounded(v, sorted[1..], key, key(sorted[0]));
    }
  }

  /** Insertion of each element in turn, so elements with equal keys stay in
      input order. */
  function SortBy<T>(vs: seq<T>, key: T -> int): (r: seq<T>)
    ensures SortedBy(r, key)
    ensures multiset(r) == multiset(vs)
  {
    if vs == [] then []
    else
      var front := vs[..|vs| - 1];
      var sortedFront := SortBy(front, key);
      assert vs == front + [vs[|vs| - 1]];
      InsertSorted(vs[|vs| - 1], sortedFront, key);
      InsertPermutes(vs[|vs| - 1], sortedFront, key);
      Insert(vs[|vs| - 1], sortedFront, key)
  }

  /** The elements of `vs` with key `k`, in order. */
  function WithKey<T>(vs: seq<T>, k: int, key: T -> int): seq<T> {
    if vs == [] then []
    else (if key(vs[0]) == k then [vs[0]] else []) + WithKey(vs[1..], k, key)
  }

  lemma {:induction false} WithKeyAppend<T>(a: seq<T>, b: seq<T>, k: int, key: T -> int)
    ensures WithKey(a + b, k, key) == WithKey(a, k, key) + WithKey(b, k, key)
  {
    if a == [] {
      assert a + b == b;
    } else {
      var head, rest, tail := if key(a[0]) == k then [a[0]] else [], WithKey(a[1..], k, key), WithKey(b, k, key);
      WithKeyAppend(a[1..], b, k, key);
      assert WithKey(a + b, k, key) == head + (rest + tail) by {
        assert (a + b)[0] == a[0] && (a + b)[1..] == a[1..] + b;
      }
      assert head + (rest + tail) == (head + rest) + tail;
    }
  }

  /** A sorted list whose first key exceeds `k` holds nothing with key `k`. */
  lemma {:induction false} NoneWithKeyBelowFirst<T>(sorted: seq<T>, k: int, key: T -> int)
    requires SortedBy(sorted, key)
    requires sorted != [] ==> k < key(sorted[0])
    ensures WithKey(sorted, k, key) == []
  {
    if sorted != [] {
      NoneWithKeyBelowFirst(sorted[1..], k, key);
    }
  }

  /** `WithKey` of a one-element list. */
  lemma WithKeySingle<T>(v: T, k: int, key: T -> int)
    ensures WithKey([v], k, key) == if key(v) == k then [v] else []
  {
    assert [v][1..] == [];
  }

  /** `WithKey` of a list with a first element. */
  lemma WithKeyCons<T>(v: T, rest: seq<T>, k: int, key: T -> int)
    ensures WithKey([v] + rest, k, key) == (if key(v) == k then [v] else []) + WithKey(rest, k, key)
  {
    assert ([v] + rest)[1..] == rest;
  }

  lemma {:induction false} InsertStable<T>(v: T, sorted: seq<T>, k: int, key: T -> int)
    requires SortedBy(sorted, key)
    ensures WithKey(Insert(v, sorted, key), k, key) ==
      WithKey(sorted, k, key) + (if key(v) == k then [v] else [])
  {
    var tail: seq<T> := if key(v) == k then [v] else [];
    if sorted == [] {
      WithKeySingle(v, k, key);
    } else if key(v) < key(sorted[0]) {
      WithKeyCons(v, sorted, k, key);
      if key(v) == k {
        NoneWithKeyBelowFirst(sorted, k, key);
      }
    } else {
      var s0, more := sorted[0], sorted[1..];
      assert SortedBy(more, key);
      InsertStable(v, more, k, key);
      WithKeyCons(s0, Insert(v, more, key), k, key);
      assert sorted == [s0] + more;
      WithKeyCons(s0, more, k, key);
      var head: seq<T> := if key(s0) == k then [s0] else [];
      assert WithKey(Insert(v, sorted, key), k, key) == head + (WithKey(more, k, key) + tail);
      assert WithKey(sorted, k, key) == head + WithKey(more, k, key);
    }
  }

  /** Stability: for every key, the elements with that key come out in the
      order they went in. */
  lemma {:induction false} SortByStable<T>(vs: seq<T>, k: int, key: T -> int)
    ensures WithKey(SortBy(vs, key), k, key) == WithKey(vs, k, key)
  {
    if vs != [] {
      var front := vs[..|vs| - 1];
      var v := vs[|vs| - 1];
      SortByStable(front, k, key);
      InsertStable(v, SortBy(front, key), k, key);
      assert vs == front + [v];
      WithKeyAppend(front, [v], k, key);
      WithKeySingle(v, k, key);
    }
  }

  /** The elements of `vs` satisfying `keep`, in order. */
  function Filter<T(!new)>(vs: seq<T>, keep: T -> bool): (r: seq<T>)
    ensures |r| <= |vs|
    ensures multiset(r) <= multiset(vs)
    ensures forall v :: v in r <==> v in vs && keep(v)
    ensures forall v :: multiset(r)[v] == if keep(v) then multiset(vs)[v] else 0
  {
    if vs == [] then []
    else
      var rest := Filter(vs[1..], keep);
      assert vs == [vs[0]] + vs[1..];
      if keep(vs[0]) then [vs[0]] + rest else rest
  }

  /** Filtering commutes with concatenation, so the kept elements stay in
      the order they had. */
  lemma {:induction false} FilterAppend<T(!new)>(a: seq<T>, b: seq<T>, keep: T -> bool)
    ensures Filter(a + b, keep) == Filter(a, keep) + Filter(b, keep)
  {
    if a == [] {
      assert a + b == b;
    } else {
      assert (a + b)[1..] == a[1..] + b;
      FilterAppend(a[1..], b, keep);
    }
  }
}
