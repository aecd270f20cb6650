/**
 * Python's stable `sorted(xs, key=key, reverse=reverse)` / `xs.sort(...)` on real-valued
 * keys: the result is ordered by key (non-increasing when `reverse`), is a permutation
 * of the input, and elements with equal keys keep their input order (with `reverse=True`
 * too, Python keeps ties in their original order).
 */
module Sorting {

  /** `a` may stand before `b` in the requested order. */
  predicate InOrder<T>(key: T -> real, reverse: bool, a: T, b: T) {
    if reverse then key(a) >= key(b) else key(a) <= key(b)
  }

  predicate Ordered<T>(xs: seq<T>, key: T -> real, reverse: bool) {
    forall i, j :: 0 <= i < j < |xs| ==> InOrder(key, reverse, xs[i], xs[j])
  }

  /** The elements of `xs` whose key is `k`, in their order in `xs`. */
  function WithKey<T>(xs: seq<T>, key: T -> real, k: real): seq<T>
  {
    if xs == [] then []
    else (if key(xs[0]) == k then [xs[0]] else []) + WithKey(xs[1..], key, k)
  }

  /** Places `x` before the first element it may precede. */
  function Insert<T>(x: T, ys: seq<T>, key: T -> real, reverse: bool): seq<T>
  {
    if ys == [] || InOrder(key, reverse, x, ys[0]) then [x] + ys
    else [ys[0]] + Insert(x, ys[1..], key, reverse)
  }

  /** Stable insertion sort: the head is inserted, ahead of its equals, into the sorted tail. */
  function SortBy<T>(xs: seq<T>, key: T -> real, reverse: bool): seq<T>
  {
    if xs == [] then [] else Insert(xs[0], SortBy(xs[1..], key, reverse), key, reverse)
  }

  /** Every element `y` may precede still may precede after inserting `x`, which it may also precede. */
  lemma {:induction false} InsertKeepsBound<T>(y: T, x: T, ys: seq<T>, key: T -> real, reverse: bool)
    requires InOrder(key, reverse, y, x)
    requires forall i :: 0 <= i < |ys| ==> InOrder(key, reverse, y, ys[i])
    ensures forall i :: 0 <= i < |Insert(x, ys, key, reverse)| ==> InOrder(key, reverse, y, Insert(x, ys, key, reverse)[i])
  {
    if ys != [] && !InOrder(key, reverse, x, ys[0]) {
      InsertKeepsBound(y, x, ys[1..], key, reverse);
    }
  }

  lemma {:induction false} InsertOrdered<T>(x: T, ys: seq<T>, key: T -> real, reverse: bool)
    requires Ordered(ys, key, reverse)
    ensures Ordered(Insert(x, ys, key, reverse), key, reverse)
  {
    if ys != [] && !InOrder(key, reverse, x, ys[0]) {
      InsertOrdered(x, ys[1..], key, reverse);
      InsertKeepsBound(ys[0], x, ys[1..], key, reverse);
    }
  }

  lemma {:induction false} InsertPermutes<T>(x: T, ys: seq<T>, key: T -> real, reverse: bool)
    ensures multiset(Insert(x, ys, key, reverse)) == multiset([x] + ys)
  {
    if ys != [] && !InOrder(key, reverse, x, ys[0]) {
      InsertPermutes(x, ys[1..], key, reverse);
      assert ys == [ys[0]] + ys[1..];
    }
  }

  lemma {:induction false} InsertWithKey<T>(x: T, ys: seq<T>, key: T -> real, reverse: bool, k: real)
    ensures WithKey(Insert(x, ys, key, reverse), key, k) == WithKey([x] + ys, key, k)
  {
    if ys == [] || InOrder(key, reverse, x, ys[0]) {
    } else {
      InsertWithKey(x, ys[1..], key, reverse, k);
      var r := Insert(x, ys[1..], key, reverse);
      assert ([ys[0]] + r)[1..] == r;
      assert ([x] + ys)[1..] == ys;
      assert ([x] + ys[1..])[1..] == ys[1..];
      if key(x) == k {
        assert key(ys[0]) != k;
      }
    }
  }

  /** The result is ordered by key and is a permutation of the input. */
  lemma {:induction false} SortByOrderedPermutation<T>(xs: seq<T>, key: T -> real, reverse: bool)
    ensures Ordered(SortBy(xs, key, reverse), key, reverse)
    ensures multiset(SortBy(xs, key, reverse)) == multiset(xs)
    ensures |SortBy(xs, key, reverse)| == |xs|
  {
    if xs != [] {
      SortByOrderedPermutation(xs[1..], key, reverse);
      InsertOrdered(xs[0], SortBy(xs[1..], key, reverse), key, reverse);
      InsertPermutes(xs[0], SortBy(xs[1..], key, reverse), key, reverse);
      assert xs == [xs[0]] + xs[1..];
    }
    assert |multiset(SortBy(xs, key, reverse))| == |multiset(xs)|;
  }

  /** Stability: the elements sharing any one key appear in the result in their input order. */
  lemma {:induction false} SortByStable<T>(xs: seq<T>, key: T -> real, reverse: bool, k: real)
    ensures WithKey(SortBy(xs, key, reverse), key, k) == WithKey(xs, key, k)
  {
    if xs != [] {
      var t := SortBy(xs[1..], key, reverse);
      SortByStable(xs[1..], key, reverse, k);
      InsertWithKey(xs[0], t, key, reverse, k);
      assert ([xs[0]] + t)[1..] == t;
    }
  }

  /** Sorting already ordered input changes nothing. */
  lemma {:induction false} SortByOrderedUnchanged<T>(xs: seq<T>, key: T -> real, reverse: bool)
    requires Ordered(xs, key, reverse)
    ensures SortBy(xs, key, reverse) == xs
  {
    if xs != [] {
      assert Ordered(xs[1..], key, reverse);
      SortByOrderedUnchanged(xs[1..], key, reverse);
      assert xs[1..] == [] || InOrder(key, reverse, xs[0], xs[1]);
      assert xs == [xs[0]] + xs[1..];
    }
  }

  predicate Distinct<T(==)>(xs: seq<T>) {
    forall i, j :: 0 <= i < j < |xs| ==> xs[i] != xs[j]
  }

  lemma DistinctCons<T>(a: T, t: seq<T>)
    requires a !in t && Distinct(t)
    ensures Distinct([a] + t)
  {
    forall i, j | 0 <= i < j < |[a] + t| ensures ([a] + t)[i] != ([a] + t)[j] {
      assert ([a] + t)[j] == t[j - 1];
      if i > 0 {
        assert ([a] + t)[i] == t[i - 1];
      }
    }
  }

  lemma DistinctTail<T>(a: T, t: seq<T>)
    requires Distinct([a] + t)
    ensures a !in t && Distinct(t)
  {
    var at := [a] + t;
    forall k | 0 <= k < |t| ensures t[k] != a {
      assert at[k + 1] == t[k] && at[0] == a;
    }
    forall i, j | 0 <= i < j < |t| ensures t[i] != t[j] {
      assert at[i + 1] == t[i] && at[j + 1] == t[j];
    }
  }

  lemma {:induction false} InsertMembersDistinct<T>(x: T, ys: seq<T>, key: T -> real, reverse: bool)
    ensures forall e :: e in Insert(x, ys, key, reverse) <==> e == x || e in ys
    ensures Distinct([x] + ys) ==> Distinct(Insert(x, ys, key, reverse))
  {
    if ys != [] && !InOrder(key, reverse, x, ys[0]) {
      InsertMembersDistinct(x, ys[1..], key, reverse);
      assert ys == [ys[0]] + ys[1..];
      if Distinct([x] + ys) {
        DistinctTail(x, ys);
        DistinctTail(ys[0], ys[1..]);
        DistinctCons(x, ys[1..]);
        DistinctCons(ys[0], Insert(x, ys[1..], key, reverse));
      }
    }
  }

  /** Sorting keeps exactly the input's elements, and keeps a duplicate-free input duplicate-free. */
  lemma {:induction false} SortByMembersDistinct<T>(xs: seq<T>, key: T -> real, reverse: bool)
    ensures forall e :: e in SortBy(xs, key, reverse) <==> e in xs
    ensures Distinct(xs) ==> Distinct(SortBy(xs, key, reverse))
  {
    if xs != [] {
      SortByMembersDistinct(xs[1..], key, reverse);
      InsertMembersDistinct(xs[0], SortBy(xs[1..], key, reverse), key, reverse);
      assert xs == [xs[0]] + xs[1..];
      if Distinct(xs) {
        DistinctTail(xs[0], xs[1..]);
        DistinctCons(xs[0], SortBy(xs[1..], key, reverse));
      }
    }
  }
}
