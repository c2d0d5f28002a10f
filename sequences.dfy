/** Order-preserving filtering (array_filter) and sorting by an integer key
    (the Collection::sort calls), over sequences. */
module Sequences {

  /** The elements of xs that satisfy p, in their original order. */
  function Filter<T(==)>(xs: seq<T>, p: T -> bool): (r: seq<T>)
    ensures |r| <= |xs|
    ensures forall i :: 0 <= i < |r| ==> r[i] in xs && p(r[i])
    ensures forall i :: 0 <= i < |xs| && p(xs[i]) ==> xs[i] in r
    decreases |xs|
  {
    if xs == [] then []
    else Filter(xs[..|xs| - 1], p) + (if p(xs[|xs| - 1]) then [xs[|xs| - 1]] else [])
  }

  /** Filtering a concatenation filters each part: no element moves past
      another. */
  lemma {:induction false} FilterAppend<T>(a: seq<T>, b: seq<T>, p: T -> bool)
    ensures Filter(a + b, p) == Filter(a, p) + Filter(b, p)
    decreases |b|
  {
    if b == [] {
      assert a + b == a;
    } else {
      var b' := b[..|b| - 1];
      assert (a + b)[..|a + b| - 1] == a + b';
      assert (a + b)[|a + b| - 1] == b[|b| - 1];
      FilterAppend(a, b', p);
    }
  }

  /** Filtering keeps everything when every element passes. */
  lemma {:induction false} FilterAll<T>(xs: seq<T>, p: T -> bool)
    requires forall i :: 0 <= i < |xs| ==> p(xs[i])
    ensures Filter(xs, p) == xs
    decreases |xs|
  {
    if xs != [] {
      FilterAll(xs[..|xs| - 1], p);
    }
  }

  ghost predicate SortedByKey<T>(xs: seq<T>, key: T -> int)
  {
    forall i, j :: 0 <= i < j < |xs| ==> key(xs[i]) <= key(xs[j])
  }

  /** Insert x into xs before the first element whose key is not smaller. */
  function InsertByKey<T(==)>(x: T, xs: seq<T>, key: T -> int): (r: seq<T>)
    ensures multiset(r) == multiset(xs) + multiset{x}
    decreases |xs|
  {
    if xs == [] || key(x) <= key(xs[0]) then [x] + xs
    else
      assert xs == [xs[0]] + xs[1..];
      [xs[0]] + InsertByKey(x, xs[1..], key)
  }

  /** A lower bound on every key survives the insertion. */
  lemma {:induction false} InsertByKeyBound<T>(x: T, xs: seq<T>, key: T -> int, b: int)
    requires b <= key(x) && forall i :: 0 <= i < |xs| ==> b <= key(xs[i])
    ensures forall i :: 0 <= i < |InsertByKey(x, xs, key)| ==> b <= key(InsertByKey(x, xs, key)[i])
    decreases |xs|
  {
    if xs != [] && key(x) > key(xs[0]) {
      InsertByKeyBound(x, xs[1..], key, b);
      var r' := InsertByKey(x, xs[1..], key);
      forall i | 0 <= i < |[xs[0]] + r'| ensures b <= key(([xs[0]] + r')[i]) {
        if i > 0 {
          assert ([xs[0]] + r')[i] == r'[i - 1];
        }
      }
    }
  }

  /** Inserting into a sorted sequence keeps it sorted. */
  lemma {:induction false} InsertByKeySorted<T>(x: T, xs: seq<T>, key: T -> int)
    requires SortedByKey(xs, key)
    ensures SortedByKey(InsertByKey(x, xs, key), key)
    decreases |xs|
  {
    if xs != [] && key(x) > key(xs[0]) {
      var r' := InsertByKey(x, xs[1..], key);
      InsertByKeySorted(x, xs[1..], key);
      InsertByKeyBound(x, xs[1..], key, key(xs[0]));
      var r := [xs[0]] + r';
      forall i, j | 0 <= i < j < |r| ensures key(r[i]) <= key(r[j]) {
        assert r[j] == r'[j - 1];
        if i > 0 {
          assert r[i] == r'[i - 1];
        }
      }
    }
  }

  /** A permutation of xs ordered by non-decreasing key. */
  function SortByKey<T(==)>(xs: seq<T>, key: T -> int): (r: seq<T>)
    ensures SortedByKey(r, key)
    ensures multiset(r) == multiset(xs)
    decreases |xs|
  {
    if xs == [] then []
    else
      assert xs == [xs[0]] + xs[1..];
      var sorted := SortByKey(xs[1..], key);
      InsertByKeySorted(xs[0], sorted, key);
      InsertByKey(xs[0], sorted, key)
  }
}
