/** The sorts the gateway takes from Go's sort package, and the order of strings. */
module Sorting {

  // ----- orders

  ghost predicate WeakOrder<T(!new)>(less: (T, T) -> bool) {
    && (forall a :: !less(a, a))
    && (forall a, b, c :: less(a, b) && less(b, c) ==> less(a, c))
    && (forall a, b, c :: less(a, c) ==> less(a, b) || less(b, c))
  }

  ghost predicate Total<T(!new)>(less: (T, T) -> bool) {
    forall a, b :: a != b ==> less(a, b) || less(b, a)
  }

  ghost predicate Sorted<T>(xs: seq<T>, less: (T, T) -> bool) {
    forall i, j :: 0 <= i < j < |xs| ==> !less(xs[j], xs[i])
  }

  predicate TextLess(a: string, b: string) {
    b != "" && (a == "" || a[0] < b[0] || (a[0] == b[0] && TextLess(a[1..], b[1..])))
  }

  lemma {:induction false} TextTotal(a: string, b: string)
    ensures TextLess(a, b) || TextLess(b, a) || a == b
    ensures !(TextLess(a, b) && TextLess(b, a)) && !TextLess(a, a)
  {
    if a != "" { TextIrreflexive(a); }
    if a != "" && b != "" && a[0] == b[0] {
      TextTotal(a[1..], b[1..]);
      assert a == [a[0]] + a[1..] && b == [b[0]] + b[1..];
    }
  }

  ghost predicate Agree(a: string, b: string, n: nat) {
    n <= |a| && n <= |b| && forall i :: 0 <= i < n ==> a[i] == b[i]
  }

  /** One text comes before another when it is a proper beginning of it, or has the smaller
      byte where they first differ. */
  lemma {:induction false} TextLessMeans(a: string, b: string)
    ensures TextLess(a, b) <==>
      exists n: nat :: Agree(a, b, n) && n < |b| && (n == |a| || a[n] < b[n])
  {
    if a == "" || b == "" || a[0] != b[0] {
      if b != "" && (a == "" || a[0] < b[0]) { assert Agree(a, b, 0); }
    } else {
      TextLessMeans(a[1..], b[1..]);
      forall n: nat ensures Agree(a, b, n + 1) <==> Agree(a[1..], b[1..], n) {
        assert forall i :: 1 <= i <= n && n < |a| && n < |b| ==> a[i] == a[1..][i - 1] && b[i] == b[1..][i - 1];
      }
      if TextLess(a, b) {
        var n: nat :| Agree(a[1..], b[1..], n) && n < |b[1..]| && (n == |a[1..]| || a[1..][n] < b[1..][n]);
        assert Agree(a, b, n + 1);
      }
      if n: nat :| Agree(a, b, n) && n < |b| && (n == |a| || a[n] < b[n]) {
        assert n > 0;
        assert Agree(a[1..], b[1..], n - 1);
      }
    }
  }

  lemma {:induction false} TextIrreflexive(a: string)
    ensures !TextLess(a, a)
  {
    if a != "" { TextIrreflexive(a[1..]); }
  }

  lemma {:induction false} TextTransitive(a: string, b: string, c: string)
    requires TextLess(a, b) && TextLess(b, c)
    ensures TextLess(a, c)
  {
    if a != "" && a[0] == b[0] == c[0] { TextTransitive(a[1..], b[1..], c[1..]); }
  }

  const BY_TEXT: (string, string) -> bool := (a, b) => TextLess(a, b)

  lemma TextOrder()
    ensures WeakOrder(BY_TEXT) && Total(BY_TEXT)
  {
    hide TextLess;
    forall a, b ensures !BY_TEXT(a, a) && (a != b ==> BY_TEXT(a, b) || BY_TEXT(b, a)) { TextTotal(a, b); }
    forall a, b, c | BY_TEXT(a, b) && BY_TEXT(b, c) ensures BY_TEXT(a, c) { TextTransitive(a, b, c); }
    forall a, b, c | BY_TEXT(a, c) ensures BY_TEXT(a, b) || BY_TEXT(b, c) {
      if b != a && !BY_TEXT(a, b) { TextTransitive(b, a, c); }
    }
  }

  // ----- stable sorting

  predicate Ties<T>(a: T, b: T, less: (T, T) -> bool) { !less(a, b) && !less(b, a) }

  /** The elements that tie with x, in their order. */
  function Tied<T>(xs: seq<T>, x: T, less: (T, T) -> bool): seq<T> {
    if xs == [] then []
    else Tied(xs[..|xs| - 1], x, less) + if Ties(xs[|xs| - 1], x, less) then [xs[|xs| - 1]] else []
  }

  /** The same elements in order, those that tie in their old order. */
  ghost predicate StableSort<T(!new)>(xs: seq<T>, ys: seq<T>, less: (T, T) -> bool) {
    && Sorted(ys, less) && multiset(ys) == multiset(xs)
    && forall x :: Tied(ys, x, less) == Tied(xs, x, less)
  }

  lemma {:induction false} TiedConcat<T>(xs: seq<T>, ys: seq<T>, x: T, less: (T, T) -> bool)
    ensures Tied(xs + ys, x, less) == Tied(xs, x, less) + Tied(ys, x, less)
  {
    if ys == [] {
      assert xs + ys == xs;
    } else {
      assert (xs + ys)[..|xs + ys| - 1] == xs + ys[..|ys| - 1];
      TiedConcat(xs, ys[..|ys| - 1], x, less);
    }
  }

  lemma {:induction false} TiedNone<T>(xs: seq<T>, x: T, less: (T, T) -> bool)
    requires forall i :: 0 <= i < |xs| ==> !Ties(xs[i], x, less)
    ensures Tied(xs, x, less) == []
  {
    if xs != [] { TiedNone(xs[..|xs| - 1], x, less); }
  }

  /** Where insertion puts x: after everything not greater, before the rest. */
  ghost predicate Slot<T>(ys: seq<T>, x: T, k: nat, less: (T, T) -> bool) {
    && k <= |ys| && (forall i :: 0 <= i < k ==> !less(x, ys[i]))
    && forall i :: k <= i < |ys| ==> less(x, ys[i])
  }

  lemma InsertKeepsOrder<T(!new)>(ys: seq<T>, x: T, k: nat, less: (T, T) -> bool)
    requires WeakOrder(less) && Sorted(ys, less) && Slot(ys, x, k, less)
    ensures Sorted(ys[..k] + [x] + ys[k..], less)
  {
    var zs := ys[..k] + [x] + ys[k..];
    assert forall i :: 0 <= i < |zs| ==> zs[i] == if i < k then ys[i] else if i == k then x else ys[i - 1];
  }

  lemma InsertIsStable<T(!new)>(ys: seq<T>, x: T, k: nat, z: T, less: (T, T) -> bool)
    requires WeakOrder(less) && Slot(ys, x, k, less)
    ensures Tied(ys[..k] + [x] + ys[k..], z, less) == Tied(ys, z, less) + Tied([x], z, less)
  {
    TiedConcat(ys[..k] + [x], ys[k..], z, less);
    TiedConcat(ys[..k], [x], z, less);
    TiedConcat(ys[..k], ys[k..], z, less);
    assert ys == ys[..k] + ys[k..];
    if Ties(x, z, less) { TiedNone(ys[k..], z, less); } else { TiedNone([x], z, less); }
  }

  method Sort<T(!new)>(xs: seq<T>, less: (T, T) -> bool) returns (ys: seq<T>)
    requires WeakOrder(less)
    ensures StableSort(xs, ys, less)
  {
    ys := [];
    for n := 0 to |xs|
      invariant StableSort(xs[..n], ys, less)
    {
      var x, k := xs[n], 0;
      while k < |ys| && !less(x, ys[k])
        invariant 0 <= k <= |ys| && forall i :: 0 <= i < k ==> !less(x, ys[i])
      {
        k := k + 1;
      }
      assert Slot(ys, x, k, less);
      InsertKeepsOrder(ys, x, k, less);
      assert xs[..n + 1] == xs[..n] + [x];
      forall z ensures Tied(ys[..k] + [x] + ys[k..], z, less) == Tied(xs[..n + 1], z, less) {
        InsertIsStable(ys, x, k, z, less);
        TiedConcat(xs[..n], [x], z, less);
      }
      assert ys == ys[..k] + ys[k..];
      ys := ys[..k] + [x] + ys[k..];
    }
    assert xs[..|xs|] == xs;
  }

  // ----- sorting distinct elements by a total order

  ghost predicate Distinct<T>(xs: seq<T>) {
    forall i, j :: 0 <= i < j < |xs| ==> xs[i] != xs[j]
  }

  lemma {:induction false} DistinctOnce<T>(xs: seq<T>)
    requires Distinct(xs)
    ensures forall x :: multiset(xs)[x] <= 1
  {
    if xs != [] {
      var n := |xs| - 1;
      DistinctOnce(xs[..n]);
      assert xs == xs[..n] + [xs[n]];
    }
  }

  lemma OnceDistinct<T>(xs: seq<T>)
    requires forall x :: multiset(xs)[x] <= 1
    ensures Distinct(xs)
  {
    forall i, j | 0 <= i < j < |xs| ensures xs[i] != xs[j] {
      assert xs == xs[..j] + xs[j..];
      assert xs[..j][i] in multiset(xs[..j]) && xs[j..][0] in multiset(xs[j..]);
      assert multiset(xs)[xs[j]] == multiset(xs[..j])[xs[j]] + multiset(xs[j..])[xs[j]];
    }
  }

  /** Then the order is strict, and the elements are the same. */
  lemma StrictlySorted<T(!new)>(xs: seq<T>, ys: seq<T>, less: (T, T) -> bool)
    requires StableSort(xs, ys, less) && Distinct(xs) && Total(less)
    ensures |ys| == |xs| && forall x :: x in ys <==> x in xs
    ensures forall i, j :: 0 <= i < j < |ys| ==> less(ys[i], ys[j])
  {
    DistinctOnce(xs);
    OnceDistinct(ys);
    assert |multiset(xs)| == |xs| && |multiset(ys)| == |ys|;
    forall x ensures x in ys <==> x in xs {
      assert x in ys <==> x in multiset(ys);
      assert x in xs <==> x in multiset(xs);
    }
    assert forall i, j :: 0 <= i < j < |ys| ==> ys[i] != ys[j] && !less(ys[j], ys[i]);
  }
}
