// Stand-in for Go's sort.Slice and for SQL's ORDER BY. Callers see only the
// contract (an ordered permutation), so whatever is proved about them holds
// for every order in which ties may come out.
module Sorting {

  ghost predicate TotalPreorder<T(!new)>(leq: (T, T) -> bool) {
    && (forall a, b :: leq(a, b) || leq(b, a))
    && (forall a, b, c :: leq(a, b) && leq(b, c) ==> leq(a, c))
  }

  ghost predicate Sorted<T>(xs: seq<T>, leq: (T, T) -> bool) {
    forall i, j :: 0 <= i < j < |xs| ==> leq(xs[i], xs[j])
  }

  ghost predicate SortedPermutation<T>(ys: seq<T>, xs: seq<T>, leq: (T, T) -> bool) {
    multiset(ys) == multiset(xs) && Sorted(ys, leq)
  }

  lemma SameElements<T>(ys: seq<T>, xs: seq<T>)
    requires multiset(ys) == multiset(xs)
    ensures |ys| == |xs|
    ensures forall x :: x in ys <==> x in xs
  {
    assert |multiset(ys)| == |multiset(xs)|;
    forall x
      ensures x in ys <==> x in xs
    {
      assert x in multiset(ys) <==> x in multiset(xs);
    }
  }

  method SortBy<T(!new)>(xs: seq<T>, leq: (T, T) -> bool) returns (ys: seq<T>)
    requires TotalPreorder(leq)
    ensures SortedPermutation(ys, xs, leq)
  {
    ys := [];
    for i := 0 to |xs|
      invariant multiset(ys) == multiset(xs[..i])
      invariant Sorted(ys, leq)
    {
      ys := Insert(ys, xs[i], leq);
      assert xs[..i + 1] == xs[..i] + [xs[i]];
    }
    assert xs[..|xs|] == xs;
  }

  lemma InsertKeepsSorted<T>(ys: seq<T>, x: T, k: nat, leq: (T, T) -> bool)
    requires k <= |ys| && Sorted(ys, leq)
    requires forall j :: 0 <= j < k ==> leq(ys[j], x)
    requires forall j :: k <= j < |ys| ==> leq(x, ys[j])
    ensures Sorted(ys[..k] + [x] + ys[k..], leq)
    ensures multiset(ys[..k] + [x] + ys[k..]) == multiset(ys + [x])
  {
    var zs := ys[..k] + [x] + ys[k..];
    forall i, j | 0 <= i < j < |zs|
      ensures leq(zs[i], zs[j])
    {
      var a := if i <= k then i else i - 1;
      var b := if j <= k then j else j - 1;
      assert i != k ==> zs[i] == ys[a];
      assert j != k ==> zs[j] == ys[b];
    }
    assert ys == ys[..k] + ys[k..];
  }

  method Insert<T(!new)>(ys: seq<T>, x: T, leq: (T, T) -> bool) returns (zs: seq<T>)
    requires TotalPreorder(leq) && Sorted(ys, leq)
    ensures multiset(zs) == multiset(ys + [x]) && Sorted(zs, leq)
  {
    var k := |ys|;
    while k > 0 && !leq(ys[k - 1], x)
      invariant 0 <= k <= |ys|
      invariant forall j :: k <= j < |ys| ==> leq(x, ys[j])
    {
      assert leq(x, ys[k - 1]);
      k := k - 1;
    }
    forall j | 0 <= j < k
      ensures leq(ys[j], x)
    {
      assert j < k - 1 ==> leq(ys[j], ys[k - 1]);
    }
    InsertKeepsSorted(ys, x, k, leq);
    zs := ys[..k] + [x] + ys[k..];
  }
}
