/** What the server relies on when it calls `slices.SortFunc`: some permutation that is in order. */
module Sorting {

  /** `less` behaves like a comparison on the elements of `xs`; elements may tie. */
  ghost predicate WeakOrderOn<T(!new)>(less: (T, T) -> bool, xs: multiset<T>) {
    && (forall a, b :: a in xs && b in xs && less(a, b) ==> !less(b, a))
    && (forall a, b, c :: a in xs && b in xs && c in xs && less(a, c) ==> less(a, b) || less(b, c))
  }

  ghost predicate SortedBy<T(!new)>(less: (T, T) -> bool, xs: seq<T>) {
    forall i, j :: 0 <= i < j < |xs| ==> !less(xs[j], xs[i])
  }

  ghost predicate StrictlySortedBy<T(!new)>(less: (T, T) -> bool, xs: seq<T>) {
    forall i, j :: 0 <= i < j < |xs| ==> less(xs[i], xs[j])
  }

  lemma InsertKeepsElements<T>(ys: seq<T>, k: nat, x: T)
    requires k <= |ys|
    ensures multiset(ys[..k] + [x] + ys[k..]) == multiset(ys) + multiset{x}
  {
    assert ys == ys[..k] + ys[k..];
  }

  lemma InsertKeepsOrder<T(!new)>(less: (T, T) -> bool, ys: seq<T>, k: nat, x: T, all: multiset<T>)
    requires k <= |ys| && x in all && (forall y :: y in ys ==> y in all)
    requires WeakOrderOn(less, all)
    requires SortedBy(less, ys)
    requires forall j :: k <= j < |ys| ==> less(x, ys[j])
    requires k > 0 ==> !less(x, ys[k - 1])
    ensures SortedBy(less, ys[..k] + [x] + ys[k..])
  {
    forall i | 0 <= i < k
      ensures !less(x, ys[i])
    {
      var early, last := ys[i], ys[k - 1];
      assert early in ys && last in ys;
      assert less(x, early) ==> less(x, last) || less(last, early);
    }
    forall j | k <= j < |ys|
      ensures !less(ys[j], x)
    {
      assert ys[j] in ys;
    }
  }

  /** Stands for any correct sort: callers see only the contract. */
  method Sort<T(!new)>(xs: seq<T>, less: (T, T) -> bool) returns (ys: seq<T>)
    ensures multiset(ys) == multiset(xs)
    ensures WeakOrderOn(less, multiset(xs)) ==> SortedBy(less, ys)
  {
    ys := [];
    for n := 0 to |xs|
      invariant multiset(ys) == multiset(xs[..n])
      invariant WeakOrderOn(less, multiset(xs)) ==> SortedBy(less, ys)
    {
      var k := |ys|;
      while k > 0 && less(xs[n], ys[k - 1])
        invariant 0 <= k <= |ys|
        invariant forall j :: k <= j < |ys| ==> less(xs[n], ys[j])
      {
        k := k - 1;
      }
      assert ys == ys[..k] + ys[k..];
      assert xs[..n + 1] == xs[..n] + [xs[n]];
      assert xs == xs[..n + 1] + xs[n + 1..];
      InsertKeepsElements(ys, k, xs[n]);
      if WeakOrderOn(less, multiset(xs)) {
        forall y | y in ys ensures y in multiset(xs) { assert y in multiset(ys); }
        InsertKeepsOrder(less, ys, k, xs[n], multiset(xs));
      }
      ys := ys[..k] + [xs[n]] + ys[k..];
    }
    assert xs[..|xs|] == xs;
  }

  /** In a strict order there is only one sorted arrangement. */
  lemma {:induction false} SortedIsUnique<T(!new)>(less: (T, T) -> bool, a: seq<T>, b: seq<T>)
    requires forall x, y :: less(x, y) ==> !less(y, x)
    requires StrictlySortedBy(less, a) && StrictlySortedBy(less, b)
    requires multiset(a) == multiset(b)
    ensures a == b
    decreases |a|
  {
    assert |a| == |multiset(a)| == |multiset(b)| == |b|;
    if a != [] {
      FirstElementsAgree(less, a, b);
      MultisetTail(a);
      MultisetTail(b);
      StrictTail(less, a);
      StrictTail(less, b);
      SortedIsUnique(less, a[1..], b[1..]);
      assert a == [a[0]] + a[1..] && b == [b[0]] + b[1..];
    }
  }

  lemma MultisetTail<T>(a: seq<T>)
    requires a != []
    ensures multiset(a[1..]) == multiset(a) - multiset{a[0]}
  {
    assert a == [a[0]] + a[1..];
  }

  lemma StrictTail<T(!new)>(less: (T, T) -> bool, a: seq<T>)
    requires a != [] && StrictlySortedBy(less, a)
    ensures StrictlySortedBy(less, a[1..])
  {
  }

  lemma FirstElementsAgree<T(!new)>(less: (T, T) -> bool, a: seq<T>, b: seq<T>)
    requires forall x, y :: less(x, y) ==> !less(y, x)
    requires StrictlySortedBy(less, a) && StrictlySortedBy(less, b)
    requires multiset(a) == multiset(b) && a != [] && b != []
    ensures a[0] == b[0]
  {
    assert a[0] in multiset(a) && b[0] in multiset(b);
    assert a[0] in b && b[0] in a;
    var k :| 0 <= k < |b| && b[k] == a[0];
    var m :| 0 <= m < |a| && a[m] == b[0];
    assert k > 0 ==> less(b[0], b[k]);
    assert m > 0 ==> less(a[0], a[m]);
  }

  ghost predicate Distinct<T(!new)>(xs: seq<T>) {
    forall i, j :: 0 <= i < j < |xs| ==> xs[i] != xs[j]
  }

  lemma {:induction false} DistinctCount<T(!new)>(xs: seq<T>, x: T)
    requires Distinct(xs)
    ensures multiset(xs)[x] == if x in xs then 1 else 0
  {
    if xs != [] {
      var init, last := xs[..|xs| - 1], xs[|xs| - 1];
      DistinctCount(init, x);
      assert xs == init + [last];
    }
  }

  lemma DuplicateCount<T(!new)>(xs: seq<T>, i: int, j: int)
    requires 0 <= i < j < |xs| && xs[i] == xs[j]
    ensures multiset(xs)[xs[i]] >= 2
  {
    assert xs == xs[..i] + [xs[i]] + xs[i + 1..j] + [xs[j]] + xs[j + 1..];
  }

  lemma PermutationIsDistinct<T(!new)>(a: seq<T>, b: seq<T>)
    requires Distinct(a) && multiset(a) == multiset(b)
    ensures Distinct(b)
    ensures forall x :: x in a <==> x in b
  {
    forall x ensures x in a <==> x in b { assert x in multiset(a) <==> x in multiset(b); }
    forall i, j | 0 <= i < j < |b| ensures b[i] != b[j] {
      DistinctCount(a, b[i]);
      if b[i] == b[j] { DuplicateCount(b, i, j); }
    }
  }

  lemma SameMembers<T(!new)>(a: seq<T>, b: seq<T>)
    requires Distinct(a) && Distinct(b) && forall x :: x in a <==> x in b
    ensures multiset(a) == multiset(b)
  {
    forall x ensures multiset(a)[x] == multiset(b)[x] {
      DistinctCount(a, x);
      DistinctCount(b, x);
    }
  }
}
