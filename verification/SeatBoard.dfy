// The day's board of a class: who is on time, late, missing, and how many seats
// are free (internal/store/attendance.go).
module SeatBoard {
  import opened Prelude
  import opened Sorting
  import opened School
  import Attendance

  datatype Status = OnTime | Late | Absent | Waiting

  datatype Item = Item(id: nat, no: string, seat: nat, status: Status, recognitions: int)
  {
    predicate Signed() {
      status.OnTime? || status.Late?
    }
  }

  datatype Board = Board(
    items: seq<Item>, total: nat, signed: nat, onTime: nat, late: nat, unsigned: nat, absent: nat, waiting: nat,
    unassigned: nat, emptySeats: nat)

  datatype BoardError = NoClassChosen | BadDay | UnknownClass

  // How the day's times are read: which texts are days, and the time a clock text
  // means on a day.
  datatype Calendar = Calendar(isDay: string -> bool, clockAt: (string, string) -> Option<int>)

  function StatusOf(row: Option<Attendance.Row>, late: Option<int>, deadline: Option<int>, now: int): Status {
    if row.Some? then if late.Some? && row.value.checkedAt > late.value then Late else OnTime
    else if deadline.Some? && now >= deadline.value then Absent
    else Waiting
  }

  function RowOf(rows: Attendance.Table, id: nat, day: string): Option<Attendance.Row> {
    if (id, day) in rows then Some(rows[(id, day)]) else None
  }

  function ItemOf(ss: Students, rows: Attendance.Table, id: nat, day: string, late: Option<int>,
                  deadline: Option<int>, now: int): Item
    requires id in ss
  {
    var row := RowOf(rows, id, day);
    Item(id, ss[id].no, ss[id].seat, StatusOf(row, late, deadline, now),
         if row.None? then 0 else if row.value.count < 1 then 1 else row.value.count)
  }

  // Students with a seat first, by seat; then by number and id.
  predicate ItemLe(x: Item, y: Item) {
    if (x.seat > 0) != (y.seat > 0) then x.seat > 0
    else if x.seat != y.seat then x.seat < y.seat
    else RowLe((x.no, x.id), (y.no, y.id))
  }

  lemma ItemOrder()
    ensures TotalPreorder(ItemLe)
  {
    RowOrder();
    forall x: Item, y: Item, z: Item | ItemLe(x, y) && ItemLe(y, z)
      ensures ItemLe(x, z)
    {
      var a, b, c := (x.no, x.id), (y.no, y.id), (z.no, z.id);
      assert RowLe(a, b) && RowLe(b, c) ==> RowLe(a, c);
    }
    forall x: Item, y: Item
      ensures ItemLe(x, y) || ItemLe(y, x)
    {
      assert RowLe((x.no, x.id), (y.no, y.id)) || RowLe((y.no, y.id), (x.no, x.id));
    }
  }

  function Tally(items: seq<Item>, status: Status): nat {
    if items == [] then 0
    else Tally(items[..|items| - 1], status) + if items[|items| - 1].status == status then 1 else 0
  }

  function Seated(items: seq<Item>): nat {
    if items == [] then 0 else Seated(items[..|items| - 1]) + if items[|items| - 1].seat > 0 then 1 else 0
  }

  // ---- Free seats ----

  function SeatNumbers(capacity: nat): (numbers: set<nat>)
    ensures forall n :: n in numbers <==> 1 <= n <= capacity
  {
    if capacity == 0 then {} else SeatNumbers(capacity - 1) + {capacity}
  }

  // The seats of the class that nobody has.
  function FreeSeats(ss: Students, className: string, capacity: nat): set<nat> {
    set n | n in SeatNumbers(capacity) && forall k :: k in Members(ss, className) ==> ss[k].seat != n
  }

  lemma {:induction false} CountSeatNumbers(capacity: nat)
    ensures |SeatNumbers(capacity)| == capacity
  {
    if capacity > 0 {
      CountSeatNumbers(capacity - 1);
    }
  }

  function TakenSeats(items: seq<Item>): set<nat> {
    set x | x in items && x.seat > 0 :: x.seat
  }

  ghost predicate SeatsApart(items: seq<Item>) {
    forall i, j :: 0 <= i < j < |items| && items[i].seat > 0 ==> items[i].seat != items[j].seat
  }

  lemma {:induction false} CountTaken(items: seq<Item>)
    requires SeatsApart(items)
    ensures |TakenSeats(items)| == Seated(items)
  {
    if items != [] {
      var before, last := items[..|items| - 1], items[|items| - 1];
      CountTaken(before);
      assert forall x :: x in items <==> x in before || x == last;
      if last.seat > 0 {
        assert last.seat !in TakenSeats(before);
        assert TakenSeats(items) == TakenSeats(before) + {last.seat};
      } else {
        assert TakenSeats(items) == TakenSeats(before);
      }
    }
  }

  // The items are the members of the class, each once.
  ghost predicate Lists(items: seq<Item>, ss: Students, className: string) {
    && (forall k :: k in Members(ss, className) <==> exists x :: x in items && x.id == k)
    && (forall x :: x in items ==> x.id in ss && x.seat == ss[x.id].seat)
    && (forall i, j :: 0 <= i < j < |items| ==> items[i].id != items[j].id)
  }

  // With a valid seating, the seats not counted as taken are exactly the free ones.
  lemma FreeSeatsCounted(items: seq<Item>, ss: Students, cs: Classes, c: nat)
    requires SeatsValid(ss, cs) && UniqueNames(cs) && c in cs && Lists(items, ss, cs[c].name)
    ensures |FreeSeats(ss, cs[c].name, Capacity(cs[c]))| + Seated(items) == Capacity(cs[c])
  {
    var name, capacity := cs[c].name, Capacity(cs[c]);
    MembersSitApart(items, ss, name);
    CountTaken(items);
    CountSeatNumbers(capacity);
    TakenAreSeats(items, ss, cs, c);
    TakenOrFree(items, ss, name, capacity);
    assert |SeatNumbers(capacity) - TakenSeats(items)| == capacity - |TakenSeats(items)|;
  }

  lemma MembersSitApart(items: seq<Item>, ss: Students, className: string)
    requires UniqueSeats(ss) && Lists(items, ss, className)
    ensures SeatsApart(items)
  {
    forall i, j | 0 <= i < j < |items| && items[i].seat > 0
      ensures items[i].seat != items[j].seat
    {
      assert items[i] in items && items[j] in items;
      assert items[i].id in Members(ss, className) && items[j].id in Members(ss, className);
    }
  }

  lemma TakenAreSeats(items: seq<Item>, ss: Students, cs: Classes, c: nat)
    requires SeatsValid(ss, cs) && UniqueNames(cs) && c in cs && Lists(items, ss, cs[c].name)
    ensures TakenSeats(items) <= SeatNumbers(Capacity(cs[c]))
  {
    forall n | n in TakenSeats(items)
      ensures n in SeatNumbers(Capacity(cs[c]))
    {
      var x :| x in items && x.seat > 0 && x.seat == n;
      assert x.id in Members(ss, cs[c].name);
      var d :| d in cs && cs[d].name == ss[x.id].className && ss[x.id].seat <= Capacity(cs[d]);
      assert d == c;
    }
  }

  lemma TakenOrFree(items: seq<Item>, ss: Students, className: string, capacity: nat)
    requires Lists(items, ss, className)
    ensures FreeSeats(ss, className, capacity) == SeatNumbers(capacity) - TakenSeats(items)
  {
    forall n | n in SeatNumbers(capacity)
      ensures n in FreeSeats(ss, className, capacity) <==> n !in TakenSeats(items)
    {
      if n in TakenSeats(items) {
        var x :| x in items && x.seat > 0 && x.seat == n;
        assert x.id in Members(ss, className);
      }
      if n !in FreeSeats(ss, className, capacity) {
        var k :| k in Members(ss, className) && ss[k].seat == n;
        var x :| x in items && x.id == k;
        assert x.seat in TakenSeats(items);
      }
    }
  }

  // ---- Counting ----

  ghost predicate Counted(b: Board, items: seq<Item>) {
    && b.items == items
    && b.onTime == Tally(items, OnTime) && b.late == Tally(items, Late)
    && b.absent == Tally(items, Absent) && b.waiting == Tally(items, Waiting)
    && b.signed == b.onTime + b.late && b.unsigned == b.absent + b.waiting
    && b.unassigned + Seated(items) == |items| && b.emptySeats == 0
  }

  // Every item is counted under one status.
  lemma {:induction false} Partition(items: seq<Item>)
    ensures |items| == Tally(items, OnTime) + Tally(items, Late) + Tally(items, Absent) + Tally(items, Waiting)
  {
    if items != [] {
      Partition(items[..|items| - 1]);
    }
  }

  function WithItem(b: Board, item: Item): Board {
    var seated := if item.seat > 0 then b else b.(unassigned := b.unassigned + 1);
    var counted :=
      match item.status
      case Late => seated.(signed := b.signed + 1, late := b.late + 1)
      case OnTime => seated.(signed := b.signed + 1, onTime := b.onTime + 1)
      case Absent => seated.(unsigned := b.unsigned + 1, absent := b.absent + 1)
      case Waiting => seated.(unsigned := b.unsigned + 1, waiting := b.waiting + 1);
    counted.(items := b.items + [item])
  }

  function Counting(items: seq<Item>): Board {
    if items == [] then Board([], 0, 0, 0, 0, 0, 0, 0, 0, 0)
    else WithItem(Counting(items[..|items| - 1]), items[|items| - 1])
  }

  lemma {:induction false} CountingCounts(items: seq<Item>)
    ensures Counted(Counting(items), items)
  {
    if items != [] {
      var before, last := items[..|items| - 1], items[|items| - 1];
      CountingCounts(before);
      CountedStep(Counting(before), before, last);
      assert items == before + [last];
    }
  }

  lemma TallyStep(items: seq<Item>, x: Item)
    ensures forall status :: Tally(items + [x], status) == Tally(items, status) + if x.status == status then 1 else 0
    ensures Seated(items + [x]) == Seated(items) + if x.seat > 0 then 1 else 0
  {
    assert (items + [x])[..|items|] == items;
  }

  lemma CountedStep(b: Board, items: seq<Item>, x: Item)
    requires Counted(b, items)
    ensures Counted(WithItem(b, x), items + [x])
  {
    TallyStep(items, x);
  }

  method CountItems(items: seq<Item>) returns (b: Board, taken: nat)
    ensures b == Counting(items) && taken == Seated(items)
  {
    b := Board([], 0, 0, 0, 0, 0, 0, 0, 0, 0);
    taken := 0;
    for i := 0 to |items|
      invariant b == Counting(items[..i]) && taken == Seated(items[..i])
    {
      assert items[..i + 1][..i] == items[..i];
      if items[i].seat > 0 {
        taken := taken + 1;
      }
      b := CountItem(b, items[i]);
    }
    assert items[..|items|] == items;
  }

  // The body of the loop over the rows.
  method CountItem(before: Board, item: Item) returns (b: Board)
    ensures b == WithItem(before, item)
  {
    b := before;
    if item.seat == 0 {
      b := b.(unassigned := b.unassigned + 1);
    }
    if item.Signed() {
      b := b.(signed := b.signed + 1);
      if item.status.Late? {
        b := b.(late := b.late + 1);
      } else {
        b := b.(onTime := b.onTime + 1);
      }
    } else {
      b := b.(unsigned := b.unsigned + 1);
      if item.status.Absent? {
        b := b.(absent := b.absent + 1);
      } else {
        b := b.(waiting := b.waiting + 1);
      }
    }
    b := b.(items := b.items + [item]);
  }

  // The query: an item per member, in board order.
  method QueryItems(ss: Students, rows: Attendance.Table, className: string, day: string, late: Option<int>,
                    deadline: Option<int>, now: int)
    returns (items: seq<Item>)
    ensures Lists(items, ss, className) && Sorted(items, ItemLe)
    ensures forall x :: x in items ==> x.id in ss && x == ItemOf(ss, rows, x.id, day, late, deadline, now)
  {
    var unsorted: seq<Item> := [];
    var todo := Members(ss, className);
    while todo != {}
      invariant todo <= Members(ss, className)
      invariant forall k :: k in Members(ss, className) - todo ==>
                  ItemOf(ss, rows, k, day, late, deadline, now) in unsorted
      invariant forall x :: x in unsorted ==>
                  x.id in Members(ss, className) - todo && x == ItemOf(ss, rows, x.id, day, late, deadline, now)
      invariant forall i, j :: 0 <= i < j < |unsorted| ==> unsorted[i].id != unsorted[j].id
      decreases todo
    {
      var k :| k in todo;
      unsorted := unsorted + [ItemOf(ss, rows, k, day, late, deadline, now)];
      todo := todo - {k};
    }
    ItemOrder();
    items := SortBy(unsorted, ItemLe);
    SameElements(items, unsorted);
    DistinctPermutation(items, unsorted);
    forall i, j | 0 <= i < j < |items|
      ensures items[i].id != items[j].id
    {
      assert items[i] in items && items[j] in items;
    }
    forall k | k in Members(ss, className)
      ensures exists x :: x in items && x.id == k
    {
      assert ItemOf(ss, rows, k, day, late, deadline, now) in items;
    }
  }

  method SeatBoardAt(ss: Students, cs: Classes, rows: Attendance.Table, calendar: Calendar, className: string,
                     day: string, today: string, now: int)
    returns (result: Result<Board, BoardError>)
    requires Valid(ss, cs)
    ensures var theDay := if day == "" then today else day;
            && (result == Err(NoClassChosen) <==> className == "")
            && (result == Err(BadDay) <==> className != "" && !calendar.isDay(theDay))
            && (result == Err(UnknownClass) <==>
                  className != "" && calendar.isDay(theDay) && !ClassNamed(cs, className))
            && (result.Ok? ==>
                  exists c :: c in cs && cs[c].name == className
                              && IsBoard(result.value, ss, cs, c, rows, calendar, theDay, now))
  {
    if className == "" {
      return Err(NoClassChosen);
    }
    var theDay := if day == "" then today else day;
    if !calendar.isDay(theDay) {
      return Err(BadDay);
    }
    var found := FindClass(cs, className);
    if found.None? {
      return Err(UnknownClass);
    }
    var c := found.value;
    var board := BuildBoard(ss, cs, c, rows, calendar, theDay, now);
    return Ok(board);
  }

  method BuildBoard(ss: Students, cs: Classes, c: nat, rows: Attendance.Table, calendar: Calendar, day: string,
                    now: int)
    returns (board: Board)
    requires SeatsValid(ss, cs) && UniqueNames(cs) && c in cs
    ensures IsBoard(board, ss, cs, c, rows, calendar, day, now)
  {
    var late := ClassClock(calendar, day, cs[c].lateAfter);
    var deadline := ClassClock(calendar, day, cs[c].deadline);
    var items := QueryItems(ss, rows, cs[c].name, day, late, deadline, now);
    FreeSeatsCounted(items, ss, cs, c);
    board := Summarize(items, Capacity(cs[c]));
  }

  method Summarize(items: seq<Item>, capacity: nat) returns (board: Board)
    ensures board.items == items && AddsUp(board)
    ensures board.emptySeats == if capacity > Seated(items) then capacity - Seated(items) else 0
  {
    Partition(items);
    CountingCounts(items);
    var taken;
    board, taken := CountItems(items);
    board := board.(total := |board.items|);
    if capacity > taken {
      board := board.(emptySeats := capacity - taken);
    }
  }

  function ClassClock(calendar: Calendar, day: string, clock: string): Option<int> {
    if clock == "" then None else calendar.clockAt(day, clock)
  }

  // The counts by status, and the sums a reader of the board expects.
  ghost predicate AddsUp(b: Board) {
    && b.onTime == Tally(b.items, OnTime) && b.late == Tally(b.items, Late)
    && b.absent == Tally(b.items, Absent) && b.waiting == Tally(b.items, Waiting)
    && b.total == |b.items| == b.signed + b.unsigned
    && b.signed == b.onTime + b.late && b.unsigned == b.waiting + b.absent
    && b.unassigned + Seated(b.items) == b.total
  }

  ghost predicate Shows(items: seq<Item>, ss: Students, group: Class, rows: Attendance.Table, calendar: Calendar,
                        day: string,
                        now: int)
  {
    var late, deadline := ClassClock(calendar, day, group.lateAfter), ClassClock(calendar, day, group.deadline);
    && Lists(items, ss, group.name) && Sorted(items, ItemLe)
    && forall x :: x in items ==> x.id in ss && x == ItemOf(ss, rows, x.id, day, late, deadline, now)
  }

  // What a board says: an item per member with the right status, in board order;
  // sums that add up; and as many empty seats as seat numbers nobody has.
  ghost predicate IsBoard(b: Board, ss: Students, cs: Classes, c: nat, rows: Attendance.Table, calendar: Calendar,
                          day: string,
                          now: int)
    requires c in cs
  {
    && Shows(b.items, ss, cs[c], rows, calendar, day, now) && AddsUp(b)
    && b.emptySeats == |FreeSeats(ss, cs[c].name, Capacity(cs[c]))|
  }

  // ---- What a board tells ----

  // A student with attendance is late if the class has a time for that and the first
  // check-in is after it; without attendance, absent from the deadline on if the class
  // has one; and the recognitions are those of the row, at least one.
  predicate ItemTells(x: Item, s: Student, rows: Attendance.Table, id: nat, day: string, late: Option<int>,
                      deadline: Option<int>, now: int) {
    && x.id == id && x.no == s.no && x.seat == s.seat
    && (x.status == Late <==> (id, day) in rows && late.Some? && late.value < rows[(id, day)].checkedAt)
    && (x.status == OnTime <==> (id, day) in rows && (late.None? || rows[(id, day)].checkedAt <= late.value))
    && (x.status == Absent <==> (id, day) !in rows && deadline.Some? && deadline.value <= now)
    && (x.status == Waiting <==> (id, day) !in rows && (deadline.None? || now < deadline.value))
    && (x.recognitions == 0 <==> (id, day) !in rows)
    && ((id, day) in rows ==> x.recognitions >= 1 && x.recognitions >= rows[(id, day)].count
                              && (x.recognitions == 1 || x.recognitions == rows[(id, day)].count))
  }

  lemma ItemMeans(ss: Students, rows: Attendance.Table, id: nat, day: string, late: Option<int>,
                  deadline: Option<int>, now: int)
    requires id in ss
    ensures ItemTells(ItemOf(ss, rows, id, day, late, deadline, now), ss[id], rows, id, day, late, deadline, now)
  {
  }

  // Dictionary order: a is a beginning of b, or smaller where they first differ.
  ghost predicate InDictionary(a: string, b: string) {
    exists p: nat :: p <= |a| && p <= |b| && a[..p] == b[..p] && (p == |a| || (p < |b| && a[p] < b[p]))
  }

  lemma {:induction false} TextLeMeans(a: string, b: string)
    ensures TextLe(a, b) <==> InDictionary(a, b)
  {
    if a == [] {
      assert a[..0] == b[..0];
    } else if b != [] {
      TextLeMeans(a[1..], b[1..]);
      if TextLe(a, b) {
        if a[0] < b[0] {
          assert a[..0] == b[..0];
        } else {
          var p: nat :| p <= |a[1..]| && p <= |b[1..]| && a[1..][..p] == b[1..][..p]
                        && (p == |a[1..]| || (p < |b[1..]| && a[1..][p] < b[1..][p]));
          assert a[..p + 1] == [a[0]] + a[1..][..p] && b[..p + 1] == [b[0]] + b[1..][..p];
        }
      }
      if InDictionary(a, b) {
        var p: nat :| p <= |a| && p <= |b| && a[..p] == b[..p] && (p == |a| || (p < |b| && a[p] < b[p]));
        if p > 0 {
          assert a[0] == a[..p][0] && b[0] == b[..p][0];
          assert a[1..][..p - 1] == a[..p][1..] && b[1..][..p - 1] == b[..p][1..];
        }
      }
    }
  }

  // The place of an item: by seat, those without one last, by number and then by id.
  ghost predicate Ahead(x: Item, y: Item) {
    || (x.seat > 0 && y.seat == 0)
    || (0 < x.seat < y.seat)
    || (x.seat == y.seat && x.no != y.no && InDictionary(x.no, y.no))
    || (x.seat == y.seat && x.no == y.no && x.id < y.id)
  }

  lemma AheadIff(x: Item, y: Item)
    requires x.id != y.id
    ensures ItemLe(x, y) <==> Ahead(x, y)
  {
    TextLeMeans(x.no, y.no);
  }

  ghost function With(items: seq<Item>, status: Status): set<nat> {
    set i: nat | i < |items| && items[i].status == status
  }

  lemma OneMore(places: set<nat>, n: nat, more: bool)
    requires n !in places
    ensures |places + if more then {n} else {}| == |places| + if more then 1 else 0
  {
    assert !more ==> places + {} == places;
  }

  lemma WithNext(before: seq<Item>, last: Item, status: Status)
    ensures With(before + [last], status) == With(before, status) + if last.status == status then {|before|} else {}
    ensures |before| !in With(before, status)
  {
    assert forall i: nat :: i < |before| ==> (before + [last])[i] == before[i];
  }

  lemma {:induction false} TallyCounts(items: seq<Item>, status: Status)
    ensures Tally(items, status) == |With(items, status)|
  {
    if items == [] {
      assert With(items, status) == {};
    } else {
      var before, last := items[..|items| - 1], items[|items| - 1];
      TallyCounts(before, status);
      WithNext(before, last, status);
      OneMore(With(before, status), |before|, last.status == status);
      assert before + [last] == items;
    }
  }

  ghost predicate NobodyHas(ss: Students, className: string, seat: nat) {
    forall k :: k in ss && ss[k].className == className ==> ss[k].seat != seat
  }

  // The seat numbers of the class that none of its students has.
  ghost function Unused(ss: Students, group: Class): set<nat> {
    set n: nat | 1 <= n <= group.rows * group.perRow && NobodyHas(ss, group.name, n)
  }

  // A board has one item for each student of the class, in board order, each telling
  // the truth about its student; the numbers count the items of each status and the
  // unused seats.
  lemma BoardTells(b: Board, ss: Students, cs: Classes, c: nat, rows: Attendance.Table, calendar: Calendar,
                   day: string, now: int)
    requires c in cs && IsBoard(b, ss, cs, c, rows, calendar, day, now)
    ensures var late := if cs[c].lateAfter == "" then None else calendar.clockAt(day, cs[c].lateAfter);
            var deadline := if cs[c].deadline == "" then None else calendar.clockAt(day, cs[c].deadline);
            forall x :: x in b.items ==>
              x.id in ss && ss[x.id].className == cs[c].name
              && ItemTells(x, ss[x.id], rows, x.id, day, late, deadline, now)
    ensures forall k :: k in ss && ss[k].className == cs[c].name ==> exists x :: x in b.items && x.id == k
    ensures forall i, j :: 0 <= i < j < |b.items| ==> b.items[i].id != b.items[j].id && Ahead(b.items[i], b.items[j])
    ensures b.onTime == |With(b.items, OnTime)| && b.late == |With(b.items, Late)|
    ensures b.absent == |With(b.items, Absent)| && b.waiting == |With(b.items, Waiting)|
    ensures b.emptySeats == |Unused(ss, cs[c])|
  {
    var late, deadline := ClassClock(calendar, day, cs[c].lateAfter), ClassClock(calendar, day, cs[c].deadline);
    forall x | x in b.items
      ensures x.id in ss && ss[x.id].className == cs[c].name
      ensures ItemTells(x, ss[x.id], rows, x.id, day, late, deadline, now)
    {
      assert x.id in Members(ss, cs[c].name);
      ItemMeans(ss, rows, x.id, day, late, deadline, now);
    }
    forall k | k in ss && ss[k].className == cs[c].name
      ensures exists x :: x in b.items && x.id == k
    {
      assert k in Members(ss, cs[c].name);
    }
    forall i, j | 0 <= i < j < |b.items|
      ensures Ahead(b.items[i], b.items[j])
    {
      AheadIff(b.items[i], b.items[j]);
    }
    TallyCounts(b.items, OnTime);
    TallyCounts(b.items, Late);
    TallyCounts(b.items, Absent);
    TallyCounts(b.items, Waiting);
    UnusedAreFree(ss, cs[c]);
  }

  lemma UnusedAreFree(ss: Students, group: Class)
    ensures Unused(ss, group) == FreeSeats(ss, group.name, Capacity(group))
  {
    var free := FreeSeats(ss, group.name, Capacity(group));
    forall n: nat
      ensures n in Unused(ss, group) <==> n in free
    {
      if n in Unused(ss, group) {
        assert forall k :: k in Members(ss, group.name) ==> ss[k].seat != n;
      }
      if n in free {
        assert forall k :: k in ss && ss[k].className == group.name ==> k in Members(ss, group.name);
      }
    }
  }
}
