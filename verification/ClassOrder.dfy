// The order in which classes are listed and moving a class in it
// (internal/store/classes.go).
module ClassOrder {
  import opened Prelude
  import opened School

  // sort_order, then id.
  predicate Earlier(cs: Classes, a: nat, b: nat) {
    a in cs && b in cs && (cs[a].order < cs[b].order || (cs[a].order == cs[b].order && a < b))
  }

  ghost predicate IsListing(list: seq<nat>, cs: Classes) {
    && (forall c :: c in list <==> c in cs)
    && (forall i, j :: 0 <= i < j < |list| ==> Earlier(cs, list[i], list[j]))
  }

  lemma {:induction false} ListingUnique(l: seq<nat>, m: seq<nat>, cs: Classes)
    requires IsListing(l, cs) && IsListing(m, cs)
    ensures l == m
  {
    if l == [] || m == [] {
      EmptyListing(l, cs);
      EmptyListing(m, cs);
    } else {
      FirstIsFirst(l, m, cs);
      RestIsListing(l, cs);
      RestIsListing(m, cs);
      ListingUnique(l[1..], m[1..], cs - {l[0]});
      assert l == [l[0]] + l[1..] && m == [m[0]] + m[1..];
    }
  }

  lemma EmptyListing(l: seq<nat>, cs: Classes)
    requires IsListing(l, cs)
    ensures l == [] <==> cs == map[]
  {
    if l != [] {
      assert l[0] in l;
    }
  }

  lemma FirstIsFirst(l: seq<nat>, m: seq<nat>, cs: Classes)
    requires IsListing(l, cs) && IsListing(m, cs) && l != [] && m != []
    ensures l[0] == m[0]
  {
    assert l[0] in m && m[0] in l;
    var i :| 0 <= i < |m| && m[i] == l[0];
    var j :| 0 <= j < |l| && l[j] == m[0];
    assert i > 0 ==> Earlier(cs, m[0], m[i]);
    assert j > 0 ==> Earlier(cs, l[0], l[j]);
  }

  lemma RestIsListing(l: seq<nat>, cs: Classes)
    requires IsListing(l, cs) && l != []
    ensures IsListing(l[1..], cs - {l[0]})
  {
    var rest, cs' := l[1..], cs - {l[0]};
    forall i | 0 < i < |l|
      ensures l[i] != l[0]
    {
      assert Earlier(cs, l[0], l[i]);
    }
    forall c
      ensures c in rest <==> c in cs'
    {
      if c in rest {
        var i :| 0 <= i < |rest| && rest[i] == c;
        assert c == l[i + 1] && c in l;
      }
      if c in cs' {
        assert c in l;
      }
    }
    forall i, j | 0 <= i < j < |rest|
      ensures Earlier(cs', rest[i], rest[j])
    {
      assert Earlier(cs, l[i + 1], l[j + 1]);
    }
  }

  // ---- Moving a class ----

  // On the given side of the class, in the direction of the move.
  predicate Beyond(cs: Classes, id: nat, up: bool, c: nat) {
    id in cs && c in cs && if up then cs[c].order < cs[id].order else cs[c].order > cs[id].order
  }

  // ORDER BY sort_order,id towards the class, LIMIT 1.
  predicate Nearer(cs: Classes, up: bool, a: nat, b: nat) {
    if up then Earlier(cs, b, a) else Earlier(cs, a, b)
  }

  ghost predicate Neighbor(cs: Classes, id: nat, up: bool, n: nat) {
    Beyond(cs, id, up, n) && forall c :: Beyond(cs, id, up, c) && c != n ==> Nearer(cs, up, n, c)
  }

  function Swapped(cs: Classes, a: nat, b: nat): Classes
    requires a in cs && b in cs
  {
    cs[a := cs[a].(order := cs[b].order)][b := cs[b].(order := cs[a].order)]
  }

  function MoveClassError(cs: Classes, id: nat, direction: string): Option<StoreError> {
    if direction != "up" && direction != "down" then Some(BadDirection)
    else if id !in cs then Some(Missing)
    else None
  }

  ghost predicate CanMove(cs: Classes, id: nat, up: bool) {
    exists n :: Neighbor(cs, id, up, n)
  }

  ghost function MovedTo(cs: Classes, id: nat, up: bool): Classes
    requires id in cs
  {
    if CanMove(cs, id, up) then
      var n :| Neighbor(cs, id, up, n);
      Swapped(cs, id, n)
    else cs
  }

  lemma NeighborUnique(cs: Classes, id: nat, up: bool, m: nat, n: nat)
    requires Neighbor(cs, id, up, m) && Neighbor(cs, id, up, n)
    ensures m == n
  {
    assert m != n ==> Nearer(cs, up, m, n) && Nearer(cs, up, n, m);
  }

  lemma MovedToNeighbor(cs: Classes, id: nat, up: bool, n: nat)
    requires Neighbor(cs, id, up, n)
    ensures MovedTo(cs, id, up) == Swapped(cs, id, n)
  {
    forall m | Neighbor(cs, id, up, m)
      ensures m == n
    {
      NeighborUnique(cs, id, up, m, n);
    }
  }

  lemma MoveClassKeepsValid(ss: Students, cs: Classes, id: nat, up: bool)
    requires Valid(ss, cs) && id in cs
    ensures Valid(ss, MovedTo(cs, id, up))
  {
    var t := MovedTo(cs, id, up);
    forall k | k in ss && ss[k].seat > 0
      ensures Seatable(t, ss[k].className, ss[k].seat)
    {
      var c :| c in cs && cs[c].name == ss[k].className && ss[k].seat <= Capacity(cs[c]);
      assert t[c].name == ss[k].className && ss[k].seat <= Capacity(t[c]);
    }
  }

  // In a listing, the neighbour is the class next to it.
  lemma NeighborIsAdjacent(cs: Classes, list: seq<nat>, i: nat, up: bool)
    requires UniqueOrders(cs) && IsListing(list, cs) && i < |list|
    ensures var j := if up then i - 1 else i + 1;
            if 0 <= j < |list| then Neighbor(cs, list[i], up, list[j]) else !CanMove(cs, list[i], up)
  {
    var id, j := list[i], if up then i - 1 else i + 1;
    assert id in cs;
    forall c | Beyond(cs, id, up, c)
      ensures 0 <= j < |list| && (c == list[j] || Nearer(cs, up, list[j], c))
    {
      assert c in list;
      var k :| 0 <= k < |list| && list[k] == c;
      assert k < i ==> Earlier(cs, list[k], list[i]);
      assert i < k ==> Earlier(cs, list[i], list[k]);
      assert k != j && 0 <= j < |list| ==> if up then Earlier(cs, list[k], list[j]) else Earlier(cs, list[j], list[k]);
    }
    if 0 <= j < |list| {
      assert list[j] in cs;
      assert if up then Earlier(cs, list[j], list[i]) else Earlier(cs, list[i], list[j]);
    }
  }

  // Exchanging the orders of two adjacent classes exchanges their places.
  lemma AdjacentSwapLists(cs: Classes, list: seq<nat>, i: nat)
    requires UniqueOrders(cs) && IsListing(list, cs) && i + 1 < |list|
    ensures list[i] in cs && list[i + 1] in cs
    ensures IsListing(list[i := list[i + 1]][i + 1 := list[i]], Swapped(cs, list[i], list[i + 1]))
  {
    var a, b := list[i], list[i + 1];
    assert a in list && b in list;
    var t, moved := Swapped(cs, a, b), list[i := b][i + 1 := a];
    AdjacentSwapCovers(cs, list, i);
    forall x, y | 0 <= x < y < |list|
      ensures Earlier(t, moved[x], moved[y])
    {
      assert Earlier(cs, list[x], list[y]);
      SwapOrders(cs, list, i, x);
      SwapOrders(cs, list, i, y);
    }
  }

  lemma AdjacentSwapCovers(cs: Classes, list: seq<nat>, i: nat)
    requires IsListing(list, cs) && i + 1 < |list|
    ensures forall c :: c in list[i := list[i + 1]][i + 1 := list[i]] <==> c in cs
  {
    var a, b := list[i], list[i + 1];
    var moved := list[i := b][i + 1 := a];
    forall c
      ensures c in moved <==> c in cs
    {
      assert moved[i] == b && moved[i + 1] == a;
      if c in moved {
        var k :| 0 <= k < |moved| && moved[k] == c;
        assert c == (if k == i then b else if k == i + 1 then a else list[k]) && c in list;
      }
      if c in cs {
        assert c in list;
        var k :| 0 <= k < |list| && list[k] == c;
        assert k != i && k != i + 1 ==> moved[k] == c;
      }
    }
  }

  // The place, not the class, keeps the order.
  lemma SwapOrders(cs: Classes, list: seq<nat>, i: nat, x: nat)
    requires UniqueOrders(cs) && IsListing(list, cs) && i + 1 < |list| && x < |list|
    requires list[i] in cs && list[i + 1] in cs && list[x] in cs
    ensures var moved := list[i := list[i + 1]][i + 1 := list[i]];
            var t := Swapped(cs, list[i], list[i + 1]);
            moved[x] in t && t[moved[x]].order == cs[list[x]].order
  {
    assert Earlier(cs, list[i], list[i + 1]);
    if x < i {
      assert Earlier(cs, list[x], list[i]) && Earlier(cs, list[x], list[i + 1]);
    } else if i + 1 < x {
      assert Earlier(cs, list[i], list[x]) && Earlier(cs, list[i + 1], list[x]);
    }
  }

  lemma SwapSymmetric(cs: Classes, a: nat, b: nat)
    requires a in cs && b in cs && a != b
    ensures Swapped(cs, a, b) == Swapped(cs, b, a)
  {
  }

  function Transposed(list: seq<nat>, i: int): seq<nat> {
    if 0 <= i && i + 1 < |list| then list[i := list[i + 1]][i + 1 := list[i]] else list
  }

  // A move exchanges the class with the one next to it in the listing, and does
  // nothing at the end of the list.
  lemma MoveTransposes(cs: Classes, list: seq<nat>, i: nat, up: bool, after: seq<nat>)
    requires UniqueOrders(cs) && IsListing(list, cs) && i < |list| && list[i] in cs
    requires IsListing(after, MovedTo(cs, list[i], up))
    ensures after == Transposed(list, if up then i - 1 else i)
  {
    if up && i > 0 {
      MoveUpTransposes(cs, list, i - 1, after);
    } else if !up && i + 1 < |list| {
      MoveDownTransposes(cs, list, i, after);
    } else {
      MoveStays(cs, list, i, up, after);
    }
  }

  lemma MoveStays(cs: Classes, list: seq<nat>, i: nat, up: bool, after: seq<nat>)
    requires UniqueOrders(cs) && IsListing(list, cs) && i < |list| && list[i] in cs
    requires if up then i == 0 else i + 1 == |list|
    requires IsListing(after, MovedTo(cs, list[i], up))
    ensures after == list
  {
    NeighborIsAdjacent(cs, list, i, up);
    ListingUnique(after, list, cs);
  }

  lemma MoveUpTransposes(cs: Classes, list: seq<nat>, k: nat, after: seq<nat>)
    requires UniqueOrders(cs) && IsListing(list, cs) && k + 1 < |list| && list[k + 1] in cs
    requires IsListing(after, MovedTo(cs, list[k + 1], true))
    ensures after == Transposed(list, k)
  {
    NeighborIsAdjacent(cs, list, k + 1, true);
    MovedToNeighbor(cs, list[k + 1], true, list[k]);
    AdjacentSwap(cs, list, k);
    ListingUnique(after, Transposed(list, k), Swapped(cs, list[k + 1], list[k]));
  }

  lemma MoveDownTransposes(cs: Classes, list: seq<nat>, i: nat, after: seq<nat>)
    requires UniqueOrders(cs) && IsListing(list, cs) && i + 1 < |list| && list[i] in cs
    requires IsListing(after, MovedTo(cs, list[i], false))
    ensures after == Transposed(list, i)
  {
    NeighborIsAdjacent(cs, list, i, false);
    MovedToNeighbor(cs, list[i], false, list[i + 1]);
    AdjacentSwap(cs, list, i);
    ListingUnique(after, Transposed(list, i), Swapped(cs, list[i], list[i + 1]));
  }

  // Whichever of the two classes was asked to move.
  lemma AdjacentSwap(cs: Classes, list: seq<nat>, k: nat)
    requires UniqueOrders(cs) && IsListing(list, cs) && k + 1 < |list|
    ensures list[k] in cs && list[k + 1] in cs
    ensures Swapped(cs, list[k + 1], list[k]) == Swapped(cs, list[k], list[k + 1])
    ensures IsListing(Transposed(list, k), Swapped(cs, list[k], list[k + 1]))
  {
    AdjacentSwapLists(cs, list, k);
    assert Earlier(cs, list[k], list[k + 1]);
    SwapSymmetric(cs, list[k], list[k + 1]);
  }

  // The opposite move undoes a move, unless the class was at one end and the
  // first move did nothing but the opposite one can.
  lemma OppositeMoveRestoresIff(cs: Classes, id: nat, up: bool)
    requires UniqueOrders(cs) && id in cs
    ensures MovedTo(MovedTo(cs, id, up), id, !up) == cs <==> CanMove(cs, id, up) || !CanMove(cs, id, !up)
  {
    if CanMove(cs, id, up) {
      var n :| Neighbor(cs, id, up, n);
      MovedToNeighbor(cs, id, up, n);
      BackToNeighbor(cs, id, up, n);
      MovedToNeighbor(Swapped(cs, id, n), id, !up, n);
      assert Swapped(Swapped(cs, id, n), id, n) == cs;
    } else if CanMove(cs, id, !up) {
      var n :| Neighbor(cs, id, !up, n);
      MovedToNeighbor(cs, id, !up, n);
      assert Swapped(cs, id, n)[id].order != cs[id].order;
    }
  }

  lemma BackToNeighbor(cs: Classes, id: nat, up: bool, n: nat)
    requires UniqueOrders(cs) && Neighbor(cs, id, up, n)
    ensures Neighbor(Swapped(cs, id, n), id, !up, n)
  {
    var t, down := Swapped(cs, id, n), !up;
    forall c | Beyond(t, id, down, c) && c != n
      ensures Nearer(t, down, n, c)
    {
      assert Beyond(cs, id, up, c) ==> Nearer(cs, up, n, c);
    }
  }
}
