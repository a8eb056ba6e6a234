// What the operations of the store make of the tables, row by row and field by field,
// and exactly when they refuse (internal/store/students.go, internal/store/classes.go).
module SchoolEffects {
  import opened Prelude
  import opened School
  import opened ClassOrder

  // ---- Rows ----

  // Nothing but the row of one student changes.
  predicate OnlyRow(ss: Students, t: Students, id: nat) {
    t.Keys == ss.Keys && forall k :: k in ss && k != id ==> t[k] == ss[k]
  }

  predicate OnlyClass(cs: Classes, t: Classes, id: nat) {
    t.Keys == cs.Keys && forall c :: c in cs && c != id ==> t[c] == cs[c]
  }

  ghost predicate NumberFree(ss: Students, no: string, id: nat) {
    forall k :: k in ss && k != id ==> ss[k].no != no
  }

  ghost predicate NameFree(cs: Classes, name: string, id: nat) {
    forall c :: c in cs && c != id ==> cs[c].name != name
  }

  ghost predicate ProfileFits(ss: Students, id: nat, no: string, name: string, className: string) {
    id > 0 && no != "" && name != "" && className != "" && id in ss && NumberFree(ss, no, id)
  }

  // The seat goes with the class.
  predicate ProfileChanged(ss: Students, t: Students, id: nat, no: string, name: string, className: string)
    requires id in ss
  {
    && OnlyRow(ss, t, id) && t[id].no == no && t[id].name == name && t[id].className == className
    && t[id].seat == if className == ss[id].className then ss[id].seat else 0
  }

  // ---- Seats ----

  // The student has the seat, whoever else of the class had it has the student's old
  // one, and nothing else changes.
  predicate SeatMoved(ss: Students, t: Students, id: nat, target: nat)
    requires id in ss
  {
    && t.Keys == ss.Keys
    && t[id] == ss[id].(seat := target)
    && forall k :: k in ss && k != id ==>
         t[k] == if target > 0 && ss[k].className == ss[id].className && ss[k].seat == target
                 then ss[k].(seat := ss[id].seat) else ss[k]
  }

  ghost predicate MayMove(ss: Students, cs: Classes, classId: nat, id: nat, target: int) {
    && classId > 0 && id > 0 && classId in cs && id in ss
    && ss[id].className == cs[classId].name
    && 0 <= target <= cs[classId].rows * cs[classId].perRow
  }

  // A move is refused exactly if the class or the student is unknown, the student is
  // not of the class, or the seat is not one of the class; the error says which.
  lemma MoveMeans(ss: Students, cs: Classes, classId: nat, id: nat, target: int)
    requires Valid(ss, cs)
    ensures var t, error := AfterMove(ss, cs, classId, id, target), MoveError(ss, cs, classId, id, target);
            && (error.None? <==> MayMove(ss, cs, classId, id, target))
            && (if error.None? then SeatMoved(ss, t, id, target) else t == ss)
            && (error == Some(NotInClass) ==> classId in cs && id in ss && ss[id].className != cs[classId].name)
            && (error == Some(SeatTooHigh) ==> classId in cs && target > cs[classId].rows * cs[classId].perRow)
            && (error == Some(NegativeSeat) ==> target < 0)
            && (error == Some(Missing) ==> classId !in cs || id !in ss)
            && (error == Some(InvalidId) <==> classId == 0 || id == 0)
  {
    if MoveError(ss, cs, classId, id, target).None? {
      MoveMoves(ss, id, target);
    }
  }

  lemma MoveMoves(ss: Students, id: nat, target: nat)
    requires UniqueSeats(ss) && id in ss
    ensures SeatMoved(ss, Exchange(ss, id, target, Displaced(ss, id, target)), id, target)
  {
    var other := Displaced(ss, id, target);
    forall k | k in ss && k != id && target > 0 && ss[k].className == ss[id].className && ss[k].seat == target
      ensures other == Some(k)
    {
      assert Sits(ss, k, ss[id].className, target, id);
      assert SeatUsed(ss, ss[id].className, target, id);
    }
  }

  // The student reported as displaced is the one who sat there, if there was one.
  lemma DisplacedMeans(ss: Students, id: nat, target: nat, k: nat)
    requires UniqueSeats(ss) && id in ss
    ensures Displaced(ss, id, target) == Some(k) <==>
              k in ss && k != id && target > 0 && ss[k].className == ss[id].className && ss[k].seat == target
  {
    if k in ss && k != id && target > 0 && ss[k].className == ss[id].className && ss[k].seat == target {
      assert Sits(ss, k, ss[id].className, target, id);
      assert SeatUsed(ss, ss[id].className, target, id);
    }
  }

  // The seat exists in the student's class and nobody else has it.
  ghost predicate SeatFree(ss: Students, cs: Classes, id: nat, seat: int)
    requires id in ss
  {
    && (exists c :: c in cs && cs[c].name == ss[id].className && seat <= cs[c].rows * cs[c].perRow)
    && forall k :: k in ss && k != id && ss[k].className == ss[id].className ==> ss[k].seat != seat
  }

  lemma SeatMeans(ss: Students, cs: Classes, id: nat, seat: int)
    ensures var t, error := AfterSeat(ss, cs, id, seat), SeatError(ss, cs, id, seat);
            && (error.None? <==> id > 0 && id in ss && (seat == 0 || (seat > 0 && SeatFree(ss, cs, id, seat))))
            && (error.None? ==> OnlyRow(ss, t, id) && t[id] == ss[id].(seat := seat))
            && (error.Some? ==> t == ss)
            && (error == Some(SeatOccupied) ==>
                  id in ss && exists k :: k in ss && k != id && ss[k].className == ss[id].className
                                          && ss[k].seat == seat)
  {
    if id in ss && seat > 0 {
      assert SeatFree(ss, cs, id, seat) ==> ClassNamed(cs, ss[id].className);
      assert Seatable(cs, ss[id].className, seat) <==>
             exists c :: c in cs && cs[c].name == ss[id].className && seat <= cs[c].rows * cs[c].perRow;
    }
  }

  // ---- Classes ----

  // Both times can be read, and lateness begins before the deadline if both are given.
  ghost predicate TimesFit(clock: string -> Option<nat>, lateAfter: string, deadline: string) {
    && (lateAfter != "" ==> clock(lateAfter).Some?)
    && (deadline != "" ==> clock(deadline).Some?)
    && (lateAfter != "" && deadline != "" ==> clock(lateAfter).value < clock(deadline).value)
  }

  ghost predicate SettingsFit(clock: string -> Option<nat>, name: string, rows: int, perRow: int, lateAfter: string,
                              deadline: string) {
    1 <= |name| <= 40 && 1 <= rows <= 20 && 1 <= perRow <= 20 && TimesFit(clock, lateAfter, deadline)
  }

  lemma SettingsFitIff(clock: string -> Option<nat>, name: string, rows: int, perRow: int, lateAfter: string,
                       deadline: string)
    ensures var error := SettingsError(clock, name, rows, perRow, lateAfter, deadline);
            && (error.None? <==> SettingsFit(clock, name, rows, perRow, lateAfter, deadline))
            && (error == Some(EmptyText) <==> name == "")
            && (error == Some(NameTooLong) <==> |name| > 40)
            && (error == Some(BadLayout) ==> !(1 <= rows <= 20 && 1 <= perRow <= 20))
            && (error == Some(BadTime) || error == Some(LateAfterDeadline) ==> !TimesFit(clock, lateAfter, deadline))
            && (error == Some(LateAfterDeadline) ==> lateAfter != "" && deadline != "")
  {
  }

  // A class without a layout gets six rows of eight, and comes last in the order.
  lemma CreateClassMeans(cs: Classes, clock: string -> Option<nat>, id: nat, order: int, name: string, rows: int,
                         perRow: int, lateAfter: string, deadline: string)
    requires id !in cs && NextOrder(cs, order)
    ensures var t := AfterCreateClass(cs, clock, id, order, name, rows, perRow, lateAfter, deadline);
            var error := CreateClassError(cs, clock, name, rows, perRow, lateAfter, deadline);
            var seatRows, seatsPerRow := if rows == 0 then 6 else rows, if perRow == 0 then 8 else perRow;
            && (error.None? <==> SettingsFit(clock, name, seatRows, seatsPerRow, lateAfter, deadline)
                                 && NameFree(cs, name, id))
            && (error == Some(ClassNameTaken) ==> !NameFree(cs, name, id))
            && (error.Some? ==> t == cs)
            && (error.None? ==>
                  && t.Keys == cs.Keys + {id} && (forall c :: c in cs ==> t[c] == cs[c] && cs[c].order < t[id].order)
                  && (if cs == map[] then t[id].order == 1 else exists c :: c in cs && t[id].order == cs[c].order + 1)
                  && t[id].name == name && t[id].rows == seatRows && t[id].perRow == seatsPerRow
                  && t[id].lateAfter == lateAfter && t[id].deadline == deadline)
  {
    SettingsFitIff(clock, name, if rows == 0 then 6 else rows, if perRow == 0 then 8 else perRow, lateAfter, deadline);
    if cs != map[] {
      var c :| c in cs && cs[c].order == order - 1;
      assert order == cs[c].order + 1;
    }
  }

  // The students of a class.
  function StudentsOf(ss: Students, className: string): set<nat> {
    set k | k in ss && ss[k].className == className
  }

  // The class keeps its place in the order; its students go along under the new name.
  predicate ClassChanged(ss: Students, t: Students, cs: Classes, u: Classes, id: nat, row: Class)
    requires id in cs
  {
    && OnlyClass(cs, u, id)
    && u[id].name == row.name && u[id].rows == row.rows && u[id].perRow == row.perRow
    && u[id].lateAfter == row.lateAfter && u[id].deadline == row.deadline && u[id].order == cs[id].order
    && t.Keys == ss.Keys
    && forall k :: k in ss ==>
         t[k] == if ss[k].className == cs[id].name then ss[k].(className := row.name) else ss[k]
  }

  // The class has room for its students and for every seat they have.
  ghost predicate RoomFor(ss: Students, className: string, rows: int, perRow: int) {
    && |StudentsOf(ss, className)| <= rows * perRow
    && forall k :: k in StudentsOf(ss, className) ==> ss[k].seat <= rows * perRow
  }

  lemma UpdateClassMeans(ss: Students, cs: Classes, clock: string -> Option<nat>, id: nat, name: string, rows: int,
                         perRow: int, lateAfter: string, deadline: string)
    ensures var (t, u) := AfterUpdateClass(ss, cs, clock, id, name, rows, perRow, lateAfter, deadline);
            var error := UpdateClassError(ss, cs, clock, id, name, rows, perRow, lateAfter, deadline);
            && (error.None? <==> SettingsFit(clock, name, rows, perRow, lateAfter, deadline) && id in cs
                                 && RoomFor(ss, cs[id].name, rows, perRow) && NameFree(cs, name, id))
            && (error == Some(ClassNameTaken) ==> !NameFree(cs, name, id))
            && (error == Some(TooManyStudents) || error == Some(SeatBeyondLayout) ==>
                  id in cs && !RoomFor(ss, cs[id].name, rows, perRow))
            && (error == Some(Missing) ==> id !in cs)
            && (error.Some? ==> t == ss && u == cs)
            && (error.None? && rows >= 0 && perRow >= 0 ==>
                  ClassChanged(ss, t, cs, u, id, Class(name, 0, rows, perRow, lateAfter, deadline)))
  {
    SettingsFitIff(clock, name, rows, perRow, lateAfter, deadline);
    if SettingsFit(clock, name, rows, perRow, lateAfter, deadline) && id in cs {
      RoomIff(ss, cs[id].name, rows, perRow);
    }
  }

  lemma RoomIff(ss: Students, className: string, rows: nat, perRow: nat)
    ensures RoomFor(ss, className, rows, perRow) <==>
              |Members(ss, className)| <= rows * perRow && !SeatBeyond(ss, className, rows * perRow)
  {
    assert Members(ss, className) == StudentsOf(ss, className);
    if !SeatBeyond(ss, className, rows * perRow) {
      assert forall k :: k in ss && ss[k].className == className ==> ss[k].seat <= rows * perRow;
    }
  }

  lemma DeleteClassMeans(ss: Students, cs: Classes, id: nat)
    ensures var t, error := AfterDeleteClass(ss, cs, id), DeleteClassError(ss, cs, id);
            && (error.None? <==> id in cs && forall k :: k in ss ==> ss[k].className != cs[id].name)
            && (error == Some(Missing) <==> id !in cs)
            && (error.Some? ==> t == cs)
            && (error.None? ==> t.Keys == cs.Keys - {id} && forall c :: c in t ==> t[c] == cs[c])
  {
    if id in cs && Members(ss, cs[id].name) == {} {
      forall k | k in ss
        ensures ss[k].className != cs[id].name
      {
        assert k !in Members(ss, cs[id].name);
      }
    }
  }

  // Arranging is refused exactly if the class is unknown or has more students than
  // seats.
  lemma ArrangeRefusedIff(ss: Students, cs: Classes, id: nat, ids: seq<nat>)
    requires id in cs ==> IsRoster(ids, ss, cs[id].name)
    requires forall k :: k in ids ==> k in ss
    ensures var error := ArrangeError(cs, id, |ids|);
            && (error.None? <==> id in cs && |StudentsOf(ss, cs[id].name)| <= cs[id].rows * cs[id].perRow)
            && (error == Some(Missing) <==> id !in cs)
            && (error.Some? ==> AfterArrange(ss, cs, id, ids) == ss)
  {
    if id in cs {
      RosterCounts(ids, ss, cs[id].name);
    }
  }

  lemma RosterCounts(ids: seq<nat>, ss: Students, className: string)
    requires IsRoster(ids, ss, className)
    ensures |ids| == |StudentsOf(ss, className)|
  {
    forall i: nat, j: nat | i < j < |ids|
      ensures ids[i] != ids[j]
    {
      assert Before(ss, ids[i], ids[j]);
    }
    DistinctCount(ids);
    assert Elements(ids) == StudentsOf(ss, className) by {
      forall k: nat
        ensures k in ids <==> k in StudentsOf(ss, className)
      {
        assert k in ids <==> k in Members(ss, className);
      }
    }
  }

  ghost function Elements(ids: seq<nat>): set<nat> {
    set k: nat | k in ids
  }

  lemma {:induction false} DistinctCount(ids: seq<nat>)
    requires forall i: nat, j: nat :: i < j < |ids| ==> ids[i] != ids[j]
    ensures |Elements(ids)| == |ids|
  {
    if ids == [] {
      assert Elements(ids) == {};
    } else {
      var before, last := ids[..|ids| - 1], ids[|ids| - 1];
      DistinctCount(before);
      assert last !in before;
      assert ids == before + [last];
      assert Elements(ids) == Elements(before) + {last};
    }
  }

  // ---- The order of classes ----

  // Classes are listed by ascending order.
  lemma ListingAscends(cs: Classes, list: seq<nat>)
    requires UniqueOrders(cs) && IsListing(list, cs)
    ensures forall c :: c in list <==> c in cs
    ensures forall i, j :: 0 <= i < j < |list| ==>
              list[i] in cs && list[j] in cs && cs[list[i]].order < cs[list[j]].order
  {
    forall i, j | 0 <= i < j < |list|
      ensures list[i] in cs && list[j] in cs && cs[list[i]].order < cs[list[j]].order
    {
      assert Earlier(cs, list[i], list[j]);
    }
  }

  // The class next to it: before it on the way up, after it on the way down.
  ghost predicate NextTo(cs: Classes, id: nat, up: bool, n: nat)
    requires id in cs && n in cs
  {
    if up
    then cs[n].order < cs[id].order && forall c :: c in cs ==> !(cs[n].order < cs[c].order < cs[id].order)
    else cs[n].order > cs[id].order && forall c :: c in cs ==> !(cs[n].order > cs[c].order > cs[id].order)
  }

  predicate OrdersExchanged(cs: Classes, t: Classes, id: nat, n: nat)
    requires id in cs && n in cs
  {
    && t.Keys == cs.Keys && t[id] == cs[id].(order := cs[n].order) && t[n] == cs[n].(order := cs[id].order)
    && forall c :: c in cs && c != id && c != n ==> t[c] == cs[c]
  }

  // Moving a class exchanges its order with that of the class next to it, and
  // changes nothing if there is none.
  lemma MoveClassMeans(cs: Classes, id: nat, up: bool)
    requires UniqueOrders(cs) && id in cs
    ensures forall n :: n in cs && NextTo(cs, id, up, n) ==> OrdersExchanged(cs, MovedTo(cs, id, up), id, n)
    ensures (forall n :: n in cs ==> !NextTo(cs, id, up, n)) ==> MovedTo(cs, id, up) == cs
  {
    forall n | n in cs && NextTo(cs, id, up, n)
      ensures OrdersExchanged(cs, MovedTo(cs, id, up), id, n)
    {
      NextToIff(cs, id, up, n);
      MovedToNeighbor(cs, id, up, n);
    }
    if CanMove(cs, id, up) {
      var n :| Neighbor(cs, id, up, n);
      NextToIff(cs, id, up, n);
    }
  }

  lemma NextToIff(cs: Classes, id: nat, up: bool, n: nat)
    requires UniqueOrders(cs) && id in cs && n in cs
    ensures NextTo(cs, id, up, n) <==> Neighbor(cs, id, up, n)
  {
    if Neighbor(cs, id, up, n) {
      forall c | c in cs
        ensures if up then !(cs[n].order < cs[c].order < cs[id].order) else !(cs[n].order > cs[c].order > cs[id].order)
      {
        assert Beyond(cs, id, up, c) && c != n ==> Nearer(cs, up, n, c);
      }
    }
    if NextTo(cs, id, up, n) {
      forall c | Beyond(cs, id, up, c) && c != n
        ensures Nearer(cs, up, n, c)
      {
      }
    }
  }
}
