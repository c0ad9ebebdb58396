/** Python's `sorted(xs, key=k)` for an integer key: ascending by key, and
    stable (elements with equal keys keep their relative order). */
module Sorting {

  predicate SortedBy<T>(s: seq<T>, key: T -> int) {
    forall i, j :: 0 <= i < j < |s| ==> key(s[i]) <= key(s[j])
  }

  /** The elements of `s` whose key is `k`, in their order in `s`. */
  function WithKey<T>(s: seq<T>, key: T -> int, k: int): seq<T> {
    if s == [] then [] else (if key(s[0]) == k then [s[0]] else []) + WithKey(s[1..], key, k)
  }

  /** Places `x` before the first element whose key is not smaller than its own. */
  function Insert<T>(x: T, s: seq<T>, key: T -> int): (r: seq<T>)
    requires SortedBy(s, key)
    ensures SortedBy(r, key)
    ensures multiset(r) == multiset(s) + multiset{x}
  {
    if s == [] || key(x) <= key(s[0]) then [x] + s
    else
      var r := Insert(x, s[1..], key);
      assert s == [s[0]] + s[1..];
      InsertBounded(x, s, r, key);
      SortedCons(s[0], r, key);
      [s[0]] + r
  }

  lemma {:induction false} SortedCons<T>(y: T, r: seq<T>, key: T -> int)
    requires SortedBy(r, key)
    requires forall i :: 0 <= i < |r| ==> key(y) <= key(r[i])
    ensures SortedBy([y] + r, key)
  {
    var t := [y] + r;
    assert forall i :: 0 < i < |t| ==> t[i] == r[i - 1];
  }

  lemma {:induction false} InsertBounded<T>(x: T, s: seq<T>, r: seq<T>, key: T -> int)
    requires s != [] && SortedBy(s, key) && key(s[0]) < key(x)
    requires multiset(r) == multiset(s[1..]) + multiset{x}
    ensures forall i :: 0 <= i < |r| ==> key(s[0]) <= key(r[i])
  {
    forall i | 0 <= i < |r| ensures key(s[0]) <= key(r[i]) {
      assert r[i] in multiset(r);
      if r[i] != x {
        assert r[i] in s[1..];
      }
    }
  }

  /** Insertion sort, taking elements from the back so that the earlier of
      two equal keys ends up first. */
  function SortBy<T>(s: seq<T>, key: T -> int): (r: seq<T>)
    ensures SortedBy(r, key)
    ensures multiset(r) == multiset(s)
  {
    if s == [] then []
    else
      assert s == [s[0]] + s[1..];
      Insert(s[0], SortBy(s[1..], key), key)
  }

  /** The elements with key `k` of `[y] + s`. */
  lemma {:induction false} WithKeyCons<T>(y: T, s: seq<T>, key: T -> int, k: int)
    ensures WithKey([y] + s, key, k) == (if key(y) == k then [y] else []) + WithKey(s, key, k)
  {
    assert ([y] + s)[1..] == s;
  }

  lemma {:induction false} InsertWithKey<T>(x: T, s: seq<T>, key: T -> int, k: int)
    requires SortedBy(s, key)
    ensures WithKey(Insert(x, s, key), key, k) == (if key(x) == k then [x] else []) + WithKey(s, key, k)
  {
    if s == [] || key(x) <= key(s[0]) {
      WithKeyCons(x, s, key, k);
    } else {
      var s0, tail := s[0], s[1..];
      var hx: seq<T> := if key(x) == k then [x] else [];
      var h0: seq<T> := if key(s0) == k then [s0] else [];
      var r := Insert(x, tail, key);
      InsertWithKey(x, tail, key, k);
      WithKeyCons(s0, r, key, k);
      assert h0 + (hx + WithKey(tail, key, k)) == hx + (h0 + WithKey(tail, key, k));
    }
  }

  /** Sorting keeps, for every key, the elements with that key in their original order. */
  lemma {:induction false} SortByStable<T>(s: seq<T>, key: T -> int)
    ensures forall k :: WithKey(SortBy(s, key), key, k) == WithKey(s, key, k)
  {
    if s != [] {
      SortByStable(s[1..], key);
      forall k ensures WithKey(SortBy(s, key), key, k) == WithKey(s, key, k) {
        InsertWithKey(s[0], SortBy(s[1..], key), key, k);
      }
    }
  }
}
