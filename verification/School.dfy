// The tables of students and classes, what must hold of them, and what each
// operation does to them (internal/store/students.go, internal/store/classes.go).
// Texts stand for their trimmed values.
module School {
  import opened Prelude
  import opened Sorting

  const DEFAULT_ROWS := 6
  const DEFAULT_PER_ROW := 8
  const MAX_SIDE := 20
  const MAX_NAME := 40

  datatype Student = Student(no: string, name: string, className: string, seat: nat)

  datatype Class = Class(name: string, order: int, rows: nat, perRow: nat, lateAfter: string, deadline: string)

  type Students = map<nat, Student>

  type Classes = map<nat, Class>

  datatype StoreError =
    | InvalidId | Missing | EmptyText | NumberTaken | NegativeSeat | NoSuchClass | SeatTooHigh | SeatOccupied
    | NotInClass | NameTooLong | BadLayout | BadTime | LateAfterDeadline | ClassNameTaken | TooManyStudents
    | SeatBeyondLayout | ClassNotEmpty | BadDirection | ReadFailed

  function Capacity(c: Class): nat {
    c.rows * c.perRow
  }

  predicate Seatable(cs: Classes, className: string, seat: nat) {
    exists c :: c in cs && cs[c].name == className && seat <= Capacity(cs[c])
  }

  // ---- The indexes ----

  ghost predicate UniqueNumbers(ss: Students) {
    forall a, b :: a in ss && b in ss && ss[a].no == ss[b].no ==> a == b
  }

  // idx_students_class_seat.
  ghost predicate UniqueSeats(ss: Students) {
    forall a, b :: a in ss && b in ss && a != b && ss[a].seat > 0 && ss[a].className == ss[b].className ==>
      ss[a].seat != ss[b].seat
  }

  ghost predicate UniqueNames(cs: Classes) {
    forall a, b :: a in cs && b in cs && cs[a].name == cs[b].name ==> a == b
  }

  ghost predicate UniqueOrders(cs: Classes) {
    forall a, b :: a in cs && b in cs && cs[a].order == cs[b].order ==> a == b
  }

  ghost predicate LayoutsValid(cs: Classes) {
    forall c :: c in cs ==> 1 <= cs[c].rows <= MAX_SIDE && 1 <= cs[c].perRow <= MAX_SIDE
  }

  // A seat belongs to a class that exists and has it, and to one student.
  ghost predicate SeatsValid(ss: Students, cs: Classes) {
    UniqueSeats(ss) && forall k :: k in ss && ss[k].seat > 0 ==> Seatable(cs, ss[k].className, ss[k].seat)
  }

  ghost predicate Valid(ss: Students, cs: Classes) {
    UniqueNumbers(ss) && UniqueNames(cs) && UniqueOrders(cs) && LayoutsValid(cs) && SeatsValid(ss, cs)
  }

  // ---- Lookups ----

  predicate NumberUsed(ss: Students, no: string, except: nat) {
    exists k :: k in ss && k != except && ss[k].no == no
  }

  predicate NameUsed(cs: Classes, name: string, except: nat) {
    exists c :: c in cs && c != except && cs[c].name == name
  }

  predicate SeatUsed(ss: Students, className: string, seat: nat, except: nat) {
    exists k :: k in ss && k != except && ss[k].className == className && ss[k].seat == seat
  }

  function Members(ss: Students, className: string): set<nat> {
    set k | k in ss && ss[k].className == className
  }

  // SELECT ... FROM classes WHERE name=?
  method FindClass(cs: Classes, name: string) returns (found: Option<nat>)
    ensures found.Some? ==> found.value in cs && cs[found.value].name == name
    ensures found.None? ==> !ClassNamed(cs, name)
  {
    var todo := cs.Keys;
    while todo != {}
      invariant todo <= cs.Keys
      invariant forall c :: c in cs && cs[c].name == name ==> c in todo
      decreases todo
    {
      var c :| c in todo;
      if cs[c].name == name {
        return Some(c);
      }
      todo := todo - {c};
    }
    return None;
  }

  // ---- Students ----

  function CreateStudentError(ss: Students, id: nat, no: string, name: string): Option<StoreError> {
    if no == "" || name == "" then Some(EmptyText)
    else if NumberUsed(ss, no, id) then Some(NumberTaken)
    else None
  }

  function AfterCreateStudent(ss: Students, id: nat, no: string, name: string, className: string): Students {
    if CreateStudentError(ss, id, no, name).None? then ss[id := Student(no, name, className, 0)] else ss
  }

  function ProfileError(ss: Students, id: nat, no: string, name: string, className: string): Option<StoreError> {
    if id == 0 then Some(InvalidId)
    else if no == "" || name == "" || className == "" then Some(EmptyText)
    else if id !in ss then Some(Missing)
    else if NumberUsed(ss, no, id) then Some(NumberTaken)
    else None
  }

  // Leaving a class gives up the seat.
  function AfterProfile(ss: Students, id: nat, no: string, name: string, className: string): Students {
    if ProfileError(ss, id, no, name, className).None?
    then ss[id := Student(no, name, className, if ss[id].className == className then ss[id].seat else 0)]
    else ss
  }

  function ChangeClassError(ss: Students, id: nat, className: string): Option<StoreError> {
    if id == 0 then Some(InvalidId) else if className == "" then Some(EmptyText)
    else if id !in ss then Some(Missing) else None
  }

  function AfterChangeClass(ss: Students, id: nat, className: string): Students {
    if ChangeClassError(ss, id, className).None? && ss[id].className != className
    then ss[id := ss[id].(className := className, seat := 0)]
    else ss
  }

  predicate ClassNamed(cs: Classes, name: string) {
    exists c :: c in cs && cs[c].name == name
  }

  function SeatError(ss: Students, cs: Classes, id: nat, seat: int): Option<StoreError> {
    if id == 0 then Some(InvalidId)
    else if seat < 0 then Some(NegativeSeat)
    else if id !in ss then Some(Missing)
    else if seat == 0 then None
    else if !ClassNamed(cs, ss[id].className) then Some(NoSuchClass)
    else if !Seatable(cs, ss[id].className, seat) then Some(SeatTooHigh)
    else if SeatUsed(ss, ss[id].className, seat, id) then Some(SeatOccupied)
    else None
  }

  function AfterSeat(ss: Students, cs: Classes, id: nat, seat: int): Students {
    if SeatError(ss, cs, id, seat).None? then ss[id := ss[id].(seat := seat)] else ss
  }

  function DeleteStudentError(ss: Students, id: nat): Option<StoreError> {
    if id in ss then None else Some(Missing)
  }

  // ---- Moving within a class ----

  function MoveError(ss: Students, cs: Classes, classId: nat, id: nat, target: int): Option<StoreError> {
    if classId == 0 || id == 0 then Some(InvalidId)
    else if target < 0 then Some(NegativeSeat)
    else if classId !in cs then Some(Missing)
    else if target > Capacity(cs[classId]) then Some(SeatTooHigh)
    else if id !in ss then Some(Missing)
    else if ss[id].className != cs[classId].name then Some(NotInClass)
    else None
  }

  predicate Sits(ss: Students, k: nat, className: string, seat: nat, except: nat) {
    k in ss && k != except && ss[k].className == className && ss[k].seat == seat
  }

  // Who else sits at a seat of the class; with unique seats there is one at most.
  ghost function Occupant(ss: Students, className: string, seat: nat, except: nat): (found: Option<nat>)
    ensures found.Some? ==> Sits(ss, found.value, className, seat, except)
    ensures found.None? ==> !SeatUsed(ss, className, seat, except)
  {
    if SeatUsed(ss, className, seat, except) then
      var k :| k in ss && k != except && ss[k].className == className && ss[k].seat == seat;
      Some(k)
    else None
  }

  // The student goes to the target; who sat there gets the student's old seat, or
  // none if the student had none.
  function Exchange(ss: Students, id: nat, target: nat, other: Option<nat>): Students
    requires id in ss && (other.Some? ==> other.value in ss && other.value != id)
  {
    var moved := ss[id := ss[id].(seat := target)];
    if other.Some? then moved[other.value := ss[other.value].(seat := ss[id].seat)] else moved
  }

  ghost function Displaced(ss: Students, id: nat, target: nat): Option<nat>
    requires id in ss
  {
    if target > 0 && ss[id].seat != target then Occupant(ss, ss[id].className, target, id) else None
  }

  ghost function AfterMove(ss: Students, cs: Classes, classId: nat, id: nat, target: int): Students {
    if MoveError(ss, cs, classId, id, target).None? then Exchange(ss, id, target, Displaced(ss, id, target)) else ss
  }

  // ---- Classes ----

  // The minutes of a clock text, -1 for none; `clock` is the library's parser.
  function Minutes(clock: string -> Option<nat>, text: string): Option<int> {
    if text == "" then
      var none: int := -1;
      Some(none)
    else if clock(text).None? then None
    else
      var minutes: int := clock(text).value;
      Some(minutes)
  }

  function NameError(name: string): Option<StoreError> {
    if name == "" then Some(EmptyText) else if |name| > MAX_NAME then Some(NameTooLong) else None
  }

  function LayoutError(rows: int, perRow: int): Option<StoreError> {
    if 1 <= rows <= MAX_SIDE && 1 <= perRow <= MAX_SIDE then None else Some(BadLayout)
  }

  function TimesError(clock: string -> Option<nat>, lateAfter: string, deadline: string): Option<StoreError> {
    var late, end := Minutes(clock, lateAfter), Minutes(clock, deadline);
    if late.None? || end.None? then Some(BadTime)
    else if late.value >= 0 && end.value >= 0 && late.value >= end.value then Some(LateAfterDeadline)
    else None
  }

  function SettingsError(clock: string -> Option<nat>, name: string, rows: int, perRow: int, lateAfter: string,
                         deadline: string)
    : Option<StoreError>
  {
    if NameError(name).Some? then NameError(name)
    else if LayoutError(rows, perRow).Some? then LayoutError(rows, perRow)
    else TimesError(clock, lateAfter, deadline)
  }

  function OrDefault(n: int, default: int): int {
    if n == 0 then default else n
  }

  // COALESCE(MAX(sort_order) + 1, 1).
  ghost predicate NextOrder(cs: Classes, order: int) {
    if cs == map[] then order == 1
    else (forall c :: c in cs ==> cs[c].order < order) && exists c :: c in cs && cs[c].order == order - 1
  }

  function CreateClassError(cs: Classes, clock: string -> Option<nat>, name: string, rows: int, perRow: int,
                            lateAfter: string, deadline: string): Option<StoreError>
  {
    var checked := SettingsError(clock, name, OrDefault(rows, DEFAULT_ROWS), OrDefault(perRow, DEFAULT_PER_ROW),
                                 lateAfter, deadline);
    if checked.Some? then checked else if ClassNamed(cs, name) then Some(ClassNameTaken) else None
  }

  function AfterCreateClass(cs: Classes, clock: string -> Option<nat>, id: nat, order: int, name: string, rows: int,
                            perRow: int,
                            lateAfter: string, deadline: string): Classes
  {
    if CreateClassError(cs, clock, name, rows, perRow, lateAfter, deadline).None?
    then cs[id := Class(name, order, OrDefault(rows, DEFAULT_ROWS), OrDefault(perRow, DEFAULT_PER_ROW), lateAfter,
                        deadline)]
    else cs
  }

  predicate SeatBeyond(ss: Students, className: string, capacity: nat) {
    exists k :: k in ss && ss[k].className == className && ss[k].seat > capacity
  }

  // What is checked before the class is written.
  function SettingsRefused(ss: Students, cs: Classes, clock: string -> Option<nat>, id: nat, name: string, rows: int,
                           perRow: int,
                           lateAfter: string, deadline: string): Option<StoreError>
  {
    var checked := SettingsError(clock, name, rows, perRow, lateAfter, deadline);
    if checked.Some? then checked
    else if id !in cs then Some(Missing)
    else if |Members(ss, cs[id].name)| > rows * perRow then Some(TooManyStudents)
    else if SeatBeyond(ss, cs[id].name, rows * perRow) then Some(SeatBeyondLayout)
    else None
  }

  function UpdateClassError(ss: Students, cs: Classes, clock: string -> Option<nat>, id: nat, name: string,
                            rows: int, perRow: int,
                            lateAfter: string, deadline: string): Option<StoreError>
  {
    var refused := SettingsRefused(ss, cs, clock, id, name, rows, perRow, lateAfter, deadline);
    if refused.Some? then refused else if NameUsed(cs, name, id) then Some(ClassNameTaken) else None
  }

  function Renamed(ss: Students, before: string, after: string): Students {
    map k | k in ss :: if ss[k].className == before then ss[k].(className := after) else ss[k]
  }

  function AfterUpdateClass(ss: Students, cs: Classes, clock: string -> Option<nat>, id: nat, name: string,
                            rows: int, perRow: int,
                            lateAfter: string, deadline: string): (Students, Classes)
  {
    if UpdateClassError(ss, cs, clock, id, name, rows, perRow, lateAfter, deadline).None?
    then (Renamed(ss, cs[id].name, name),
          cs[id := Class(name, cs[id].order, rows, perRow, lateAfter, deadline)])
    else (ss, cs)
  }

  function DeleteClassError(ss: Students, cs: Classes, id: nat): Option<StoreError> {
    if id !in cs then Some(Missing) else if Members(ss, cs[id].name) != {} then Some(ClassNotEmpty) else None
  }

  function AfterDeleteClass(ss: Students, cs: Classes, id: nat): Classes {
    if DeleteClassError(ss, cs, id).None? then cs - {id} else cs
  }

  // ---- Every operation keeps the invariant ----

  lemma SetSeatKeepsSeats(ss: Students, cs: Classes, id: nat, student: Student)
    requires SeatsValid(ss, cs)
    requires student.seat > 0 ==>
               Seatable(cs, student.className, student.seat) && !SeatUsed(ss, student.className, student.seat, id)
    ensures SeatsValid(ss[id := student], cs)
  {
    var t := ss[id := student];
    forall a, b | a in t && b in t && a != b && t[a].seat > 0 && t[a].className == t[b].className
      ensures t[a].seat != t[b].seat
    {
      assert a == id && t[b].seat == student.seat ==> SeatUsed(ss, student.className, student.seat, id);
      assert b == id && t[a].seat == student.seat ==> SeatUsed(ss, student.className, student.seat, id);
    }
  }

  lemma CreateStudentKeepsValid(ss: Students, cs: Classes, id: nat, no: string, name: string, className: string)
    requires Valid(ss, cs) && id !in ss
    ensures Valid(AfterCreateStudent(ss, id, no, name, className), cs)
  {
    SetSeatKeepsSeats(ss, cs, id, Student(no, name, className, 0));
  }

  // A student that stays in the class keeps a seat nobody else has.
  lemma OwnSeat(ss: Students, id: nat)
    requires UniqueSeats(ss) && id in ss && ss[id].seat > 0
    ensures !SeatUsed(ss, ss[id].className, ss[id].seat, id)
  {
  }

  lemma ProfileRow(ss: Students, cs: Classes, id: nat, no: string, name: string, className: string)
    requires SeatsValid(ss, cs) && id in ss
    ensures var seat := if ss[id].className == className then ss[id].seat else 0;
            SeatsValid(ss[id := Student(no, name, className, seat)], cs)
  {
    if ss[id].seat > 0 {
      OwnSeat(ss, id);
    }
    var seat := if ss[id].className == className then ss[id].seat else 0;
    SetSeatKeepsSeats(ss, cs, id, Student(no, name, className, seat));
  }

  lemma ProfileKeepsValid(ss: Students, cs: Classes, id: nat, no: string, name: string, className: string)
    requires Valid(ss, cs)
    ensures Valid(AfterProfile(ss, id, no, name, className), cs)
  {
    if ProfileError(ss, id, no, name, className).None? {
      ProfileRow(ss, cs, id, no, name, className);
    }
  }

  lemma ChangeClassKeepsValid(ss: Students, cs: Classes, id: nat, className: string)
    requires Valid(ss, cs)
    ensures Valid(AfterChangeClass(ss, id, className), cs)
  {
    if id in ss {
      SetSeatKeepsSeats(ss, cs, id, ss[id].(className := className, seat := 0));
    }
  }

  lemma SeatKeepsValid(ss: Students, cs: Classes, id: nat, seat: int)
    requires Valid(ss, cs)
    ensures Valid(AfterSeat(ss, cs, id, seat), cs)
  {
    if SeatError(ss, cs, id, seat).None? {
      SetSeatKeepsSeats(ss, cs, id, ss[id].(seat := seat));
    }
  }

  lemma OneClass(cs: Classes, c: nat, seat: nat)
    requires UniqueNames(cs) && c in cs && seat > Capacity(cs[c])
    ensures !Seatable(cs, cs[c].name, seat)
  {
  }

  lemma DeleteStudentKeepsValid(ss: Students, cs: Classes, id: nat)
    requires Valid(ss, cs)
    ensures Valid(ss - {id}, cs)
  {
  }

  // Taking the target seat from its occupant, then giving it to the student, then
  // the occupant the old seat: the three statements of the move.
  lemma ExchangeKeepsSeats(ss: Students, cs: Classes, id: nat, target: nat)
    requires SeatsValid(ss, cs) && id in ss && (target > 0 ==> Seatable(cs, ss[id].className, target))
    ensures SeatsValid(Exchange(ss, id, target, Displaced(ss, id, target)), cs)
  {
    var other, source := Displaced(ss, id, target), ss[id].seat;
    if other.None? {
      if target > 0 && source == target {
        OwnSeat(ss, id);
      }
      SetSeatKeepsSeats(ss, cs, id, ss[id].(seat := target));
    } else {
      var k := other.value;
      var freed := ss[k := ss[k].(seat := 0)];
      var moved := freed[id := ss[id].(seat := target)];
      SetSeatKeepsSeats(ss, cs, k, ss[k].(seat := 0));
      SetSeatKeepsSeats(freed, cs, id, ss[id].(seat := target));
      SetSeatKeepsSeats(moved, cs, k, ss[k].(seat := source));
      assert moved[k := ss[k].(seat := source)] == Exchange(ss, id, target, other);
    }
  }

  // The table after the first and the second statement of a move.
  function Freed(ss: Students, other: Option<nat>): Students
    requires other.Some? ==> other.value in ss
  {
    if other.Some? then ss[other.value := ss[other.value].(seat := 0)] else ss
  }

  function Seated(ss: Students, id: nat, target: nat): Students
    requires id in ss
  {
    ss[id := ss[id].(seat := target)]
  }

  // The statements of a move together are the exchange ...
  lemma ExchangeInSteps(ss: Students, id: nat, target: nat, other: Option<nat>)
    requires id in ss && (other.Some? ==> other.value in ss && other.value != id)
    ensures var moved := Seated(Freed(ss, other), id, target);
            Exchange(ss, id, target, other) ==
              if other.Some? && ss[id].seat > 0 then Seated(moved, other.value, ss[id].seat) else moved
  {
    var moved := Seated(Freed(ss, other), id, target);
    if other.Some? {
      var k, e := other.value, Exchange(ss, id, target, other);
      assert moved[k] == ss[k].(seat := 0) && e[k] == ss[k].(seat := ss[id].seat);
      assert moved[id] == e[id];
      if ss[id].seat > 0 {
        assert Seated(moved, k, ss[id].seat)[k] == e[k];
      }
    }
  }

  // ... and none of them breaks the index.
  lemma ExchangeStatements(ss: Students, cs: Classes, id: nat, target: nat)
    requires SeatsValid(ss, cs) && id in ss && (target > 0 ==> Seatable(cs, ss[id].className, target))
    requires ss[id].seat != target
    ensures var freed := Freed(ss, Displaced(ss, id, target));
            && UniqueSeats(freed) && UniqueSeats(Seated(freed, id, target))
            && UniqueSeats(Exchange(ss, id, target, Displaced(ss, id, target)))
  {
    var other := Displaced(ss, id, target);
    if other.Some? {
      SetSeatKeepsSeats(ss, cs, other.value, ss[other.value].(seat := 0));
    }
    SetSeatKeepsSeats(Freed(ss, other), cs, id, ss[id].(seat := target));
    ExchangeKeepsSeats(ss, cs, id, target);
  }

  lemma MoveKeepsValid(ss: Students, cs: Classes, classId: nat, id: nat, target: int)
    requires Valid(ss, cs)
    ensures Valid(AfterMove(ss, cs, classId, id, target), cs)
  {
    if MoveError(ss, cs, classId, id, target).None? {
      ExchangeKeepsSeats(ss, cs, id, target);
    }
  }

  lemma CreateClassKeepsValid(ss: Students, cs: Classes, clock: string -> Option<nat>, id: nat, order: int,
                              name: string,
                              rows: int, perRow: int, lateAfter: string, deadline: string)
    requires Valid(ss, cs) && id !in cs && NextOrder(cs, order)
    ensures Valid(ss, AfterCreateClass(cs, clock, id, order, name, rows, perRow, lateAfter, deadline))
  {
    var t := AfterCreateClass(cs, clock, id, order, name, rows, perRow, lateAfter, deadline);
    forall k | k in ss && ss[k].seat > 0
      ensures Seatable(t, ss[k].className, ss[k].seat)
    {
      var c :| c in cs && cs[c].name == ss[k].className && ss[k].seat <= Capacity(cs[c]);
      assert c in t && t[c] == cs[c];
    }
  }

  lemma UpdateClassKeepsValid(ss: Students, cs: Classes, clock: string -> Option<nat>, id: nat, name: string,
                              rows: int, perRow: int, lateAfter: string, deadline: string)
    requires Valid(ss, cs)
    ensures var (ss', cs') := AfterUpdateClass(ss, cs, clock, id, name, rows, perRow, lateAfter, deadline);
            Valid(ss', cs')
  {
    if UpdateClassError(ss, cs, clock, id, name, rows, perRow, lateAfter, deadline).None? {
      ChangeKeepsValid(ss, cs, id, Class(name, cs[id].order, rows, perRow, lateAfter, deadline));
    }
  }

  lemma ChangeKeepsValid(ss: Students, cs: Classes, id: nat, row: Class)
    requires Valid(ss, cs) && id in cs && row.order == cs[id].order && !NameUsed(cs, row.name, id)
    requires 1 <= row.rows <= MAX_SIDE && 1 <= row.perRow <= MAX_SIDE && !SeatBeyond(ss, cs[id].name, Capacity(row))
    ensures Valid(Renamed(ss, cs[id].name, row.name), cs[id := row])
  {
    ChangeKeepsSeats(ss, cs, id, row);
    ChangeKeepsRows(ss, cs, id, row);
  }

  lemma ChangeKeepsSeats(ss: Students, cs: Classes, id: nat, row: Class)
    requires SeatsValid(ss, cs) && UniqueNames(cs) && id in cs && !NameUsed(cs, row.name, id)
    requires !SeatBeyond(ss, cs[id].name, Capacity(row))
    ensures SeatsValid(Renamed(ss, cs[id].name, row.name), cs[id := row])
  {
    var members := Members(ss, cs[id].name);
    var ss' := Renamed(ss, cs[id].name, row.name);
    RenameKeepsUniqueSeats(ss, cs, cs[id].name, row.name, id, members);
    assert ss' == RenamedIn(ss, row.name, members);
    forall k | k in ss' && ss'[k].seat > 0
      ensures Seatable(cs[id := row], ss'[k].className, ss'[k].seat)
    {
      StillSeatable(ss, cs, id, row, k);
    }
  }

  lemma ChangeKeepsRows(ss: Students, cs: Classes, id: nat, row: Class)
    requires UniqueNumbers(ss) && UniqueNames(cs) && UniqueOrders(cs) && LayoutsValid(cs)
    requires id in cs && row.order == cs[id].order && !NameUsed(cs, row.name, id)
    requires 1 <= row.rows <= MAX_SIDE && 1 <= row.perRow <= MAX_SIDE
    ensures UniqueNumbers(Renamed(ss, cs[id].name, row.name))
    ensures UniqueNames(cs[id := row]) && UniqueOrders(cs[id := row]) && LayoutsValid(cs[id := row])
  {
    var ss' := Renamed(ss, cs[id].name, row.name);
    assert forall k :: k in ss' ==> ss'[k].no == ss[k].no;
  }

  // The changed class has room for its students' seats, the others are as before.
  lemma StillSeatable(ss: Students, cs: Classes, id: nat, row: Class, k: nat)
    requires SeatsValid(ss, cs) && id in cs && k in ss && ss[k].seat > 0
    requires !SeatBeyond(ss, cs[id].name, Capacity(row))
    ensures Seatable(cs[id := row], if ss[k].className == cs[id].name then row.name else ss[k].className, ss[k].seat)
  {
    var cs' := cs[id := row];
    if ss[k].className == cs[id].name {
      assert ss[k].seat <= Capacity(row);
      assert cs'[id].name == row.name && ss[k].seat <= Capacity(cs'[id]);
    } else {
      var c :| c in cs && cs[c].name == ss[k].className && ss[k].seat <= Capacity(cs[c]);
      assert cs'[c].name == ss[k].className && ss[k].seat <= Capacity(cs'[c]);
    }
  }

  lemma SeatNeedsClass(ss: Students, cs: Classes, k: nat)
    requires SeatsValid(ss, cs) && k in ss
    ensures ss[k].seat > 0 ==> ClassNamed(cs, ss[k].className)
  {
  }

  // The students in `done` already carry the new name.
  function RenamedIn(ss: Students, after: string, done: set<nat>): Students {
    map k | k in ss :: if k in done then ss[k].(className := after) else ss[k]
  }

  // Nobody has a seat under a name no class has, so the renamed students bring
  // theirs along without a clash, in whatever order the rows are updated.
  lemma RenameKeepsUniqueSeats(ss: Students, cs: Classes, before: string, after: string, id: nat, done: set<nat>)
    requires SeatsValid(ss, cs) && id in cs && cs[id].name == before && UniqueNames(cs) && !NameUsed(cs, after, id)
    requires done <= Members(ss, before)
    ensures UniqueSeats(RenamedIn(ss, after, done))
  {
    forall k | k in ss && ss[k].className == after && after != before
      ensures ss[k].seat == 0
    {
      SeatNeedsClass(ss, cs, k);
    }
    forall k | k in done
      ensures ss[k].className == before
    {
      assert k in Members(ss, before);
    }
  }

  lemma DeleteClassKeepsValid(ss: Students, cs: Classes, id: nat)
    requires Valid(ss, cs)
    ensures Valid(ss, AfterDeleteClass(ss, cs, id))
  {
    if DeleteClassError(ss, cs, id).None? {
      forall k | k in ss && ss[k].seat > 0
        ensures Seatable(cs - {id}, ss[k].className, ss[k].seat)
      {
        assert k !in Members(ss, cs[id].name);
        var c :| c in cs && cs[c].name == ss[k].className && ss[k].seat <= Capacity(cs[c]);
        assert c in cs - {id};
      }
    }
  }

  // ---- Moving back ----

  // A move between two occupied seats is an exact swap.
  lemma MoveSwaps(ss: Students, cs: Classes, classId: nat, id: nat, other: nat)
    requires Valid(ss, cs) && other in ss && other != id
    requires MoveError(ss, cs, classId, id, ss[other].seat).None?
    requires ss[id].seat > 0 && ss[other].seat > 0 && ss[other].className == ss[id].className
    ensures AfterMove(ss, cs, classId, id, ss[other].seat) ==
              ss[id := ss[id].(seat := ss[other].seat)][other := ss[other].(seat := ss[id].seat)]
  {
    assert Sits(ss, other, ss[id].className, ss[other].seat, id);
    assert SeatUsed(ss, ss[id].className, ss[other].seat, id);
  }

  // Moving back restores everything, unless a student without a seat took one
  // that was occupied: whoever sat there stays without.
  lemma MoveBackRestoresIff(ss: Students, cs: Classes, classId: nat, id: nat, target: int)
    requires Valid(ss, cs) && MoveError(ss, cs, classId, id, target).None?
    ensures var t := AfterMove(ss, cs, classId, id, target);
            && MoveError(t, cs, classId, id, ss[id].seat).None?
            && (AfterMove(t, cs, classId, id, ss[id].seat) == ss <==>
                  !(ss[id].seat == 0 && target > 0 && SeatUsed(ss, ss[id].className, target, id)))
  {
    var source, other := ss[id].seat, Displaced(ss, id, target);
    var t := AfterMove(ss, cs, classId, id, target);
    if source > 0 {
      var c :| c in cs && cs[c].name == ss[id].className && source <= Capacity(cs[c]);
      assert c == classId;
    }
    if other.Some? {
      BackToOccupied(ss, cs, id, target);
      var k := other.value;
      assert source == 0 ==> Exchange(t, id, source, Displaced(t, id, source))[k].seat == 0 && ss[k].seat == target;
    } else {
      BackFromFree(ss, cs, id, target);
    }
  }

  // The occupant is found again at the old seat.
  lemma BackToOccupied(ss: Students, cs: Classes, id: nat, target: nat)
    requires SeatsValid(ss, cs) && id in ss && Displaced(ss, id, target).Some?
    requires target > 0 ==> Seatable(cs, ss[id].className, target)
    ensures var k, t := Displaced(ss, id, target).value, Exchange(ss, id, target, Displaced(ss, id, target));
            && (ss[id].seat > 0 ==> Exchange(t, id, ss[id].seat, Displaced(t, id, ss[id].seat)) == ss)
            && (ss[id].seat == 0 ==> t[k].seat == 0 && Displaced(t, id, 0).None?)
  {
    var k, t := Displaced(ss, id, target).value, Exchange(ss, id, target, Displaced(ss, id, target));
    if ss[id].seat > 0 {
      ExchangeKeepsSeats(ss, cs, id, target);
      assert Sits(t, k, t[id].className, ss[id].seat, id) && SeatUsed(t, t[id].className, ss[id].seat, id);
      assert Displaced(t, id, ss[id].seat) == Some(k);
    }
  }

  lemma BackFromFree(ss: Students, cs: Classes, id: nat, target: nat)
    requires SeatsValid(ss, cs) && id in ss && Displaced(ss, id, target).None?
    ensures var t := Exchange(ss, id, target, None);
            Exchange(t, id, ss[id].seat, Displaced(t, id, ss[id].seat)) == ss
  {
    var t := Exchange(ss, id, target, None);
    if ss[id].seat > 0 {
      OwnSeat(ss, id);
      assert !SeatUsed(t, t[id].className, ss[id].seat, id);
    }
    assert Exchange(t, id, ss[id].seat, None) == ss;
  }

  // ---- Arranging a class by student number ----

  // Text order, character by character.
  predicate TextLe(a: string, b: string) {
    a == [] || (b != [] && (a[0] < b[0] || (a[0] == b[0] && TextLe(a[1..], b[1..]))))
  }

  // ORDER BY student_no,id.
  predicate RowLe(x: (string, nat), y: (string, nat)) {
    if x.0 == y.0 then x.1 <= y.1 else TextLe(x.0, y.0)
  }

  lemma {:induction false} TextOrder(a: string, b: string)
    ensures TextLe(a, b) || TextLe(b, a)
    ensures TextLe(a, b) && TextLe(b, a) ==> a == b
  {
    if a != [] && b != [] {
      TextOrder(a[1..], b[1..]);
      assert a == [a[0]] + a[1..] && b == [b[0]] + b[1..];
    }
  }

  lemma {:induction false} TextTransitive(a: string, b: string, c: string)
    requires TextLe(a, b) && TextLe(b, c)
    ensures TextLe(a, c)
  {
    if a != [] && a[0] == b[0] && b[0] == c[0] {
      TextTransitive(a[1..], b[1..], c[1..]);
    }
  }

  lemma RowOrder()
    ensures TotalPreorder(RowLe)
  {
    forall x: (string, nat), y: (string, nat)
      ensures RowLe(x, y) || RowLe(y, x)
    {
      TextOrder(x.0, y.0);
    }
    forall x: (string, nat), y: (string, nat), z: (string, nat) | RowLe(x, y) && RowLe(y, z)
      ensures RowLe(x, z)
    {
      RowTransitive(x, y, z);
    }
  }

  lemma RowTransitive(x: (string, nat), y: (string, nat), z: (string, nat))
    requires RowLe(x, y) && RowLe(y, z)
    ensures RowLe(x, z)
  {
    if x.0 != y.0 && y.0 != z.0 {
      TextTransitive(x.0, y.0, z.0);
      TextOrder(x.0, y.0);
    }
  }

  predicate Before(ss: Students, a: nat, b: nat) {
    a in ss && b in ss && RowLe((ss[a].no, a), (ss[b].no, b)) && a != b
  }

  // The members of a class in the order of their numbers.
  ghost predicate IsRoster(ids: seq<nat>, ss: Students, className: string) {
    && (forall k :: k in ids <==> k in Members(ss, className))
    && (forall i, j :: 0 <= i < j < |ids| ==> Before(ss, ids[i], ids[j]))
  }

  lemma RosterOf(sorted: seq<(string, nat)>, rows: seq<(string, nat)>, ss: Students, className: string)
    requires SortedPermutation(sorted, rows, RowLe) && forall i, j :: 0 <= i < j < |rows| ==> rows[i] != rows[j]
    requires forall row :: row in rows <==> row.1 in Members(ss, className) && row.0 == ss[row.1].no
    ensures IsRoster(seq(|sorted|, i requires 0 <= i < |sorted| => sorted[i].1), ss, className)
  {
    SameElements(sorted, rows);
    DistinctPermutation(sorted, rows);
    var ids := seq(|sorted|, i requires 0 <= i < |sorted| => sorted[i].1);
    forall k
      ensures k in ids <==> k in Members(ss, className)
    {
      if k in ids {
        var i :| 0 <= i < |ids| && ids[i] == k;
        assert sorted[i] in sorted;
      }
      if k in Members(ss, className) {
        assert (ss[k].no, k) in sorted;
        var i :| 0 <= i < |sorted| && sorted[i] == (ss[k].no, k);
        assert ids[i] == k;
      }
    }
    forall i, j | 0 <= i < j < |ids|
      ensures Before(ss, ids[i], ids[j])
    {
      assert sorted[i] in sorted && sorted[j] in sorted && RowLe(sorted[i], sorted[j]) && sorted[i] != sorted[j];
    }
  }

  lemma DistinctPermutation<T>(ys: seq<T>, xs: seq<T>)
    requires multiset(ys) == multiset(xs) && forall i, j :: 0 <= i < j < |xs| ==> xs[i] != xs[j]
    ensures forall i, j :: 0 <= i < j < |ys| ==> ys[i] != ys[j]
  {
    forall i, j | 0 <= i < j < |ys|
      ensures ys[i] != ys[j]
    {
      AtMostOnce(xs, ys[i]);
      assert ys == ys[..i] + [ys[i]] + ys[i + 1..j] + [ys[j]] + ys[j + 1..];
      assert multiset(ys)[ys[i]] <= 1;
    }
  }

  lemma {:induction false} AtMostOnce<T>(xs: seq<T>, x: T)
    requires forall i, j :: 0 <= i < j < |xs| ==> xs[i] != xs[j]
    ensures multiset(xs)[x] <= 1
  {
    if xs != [] {
      AtMostOnce(xs[1..], x);
      assert xs == [xs[0]] + xs[1..];
      if x == xs[0] {
        assert x !in xs[1..];
      }
    }
  }

  function Cleared(ss: Students, className: string): Students {
    map k | k in ss :: if ss[k].className == className then ss[k].(seat := 0) else ss[k]
  }

  // Seats 1, 2, ... to the ids in turn.
  function SeatInOrder(ss: Students, ids: seq<nat>): (t: Students)
    requires forall k :: k in ids ==> k in ss
    ensures t.Keys == ss.Keys
  {
    if ids == [] then ss
    else
      var last := ids[|ids| - 1];
      var before := SeatInOrder(ss, ids[..|ids| - 1]);
      before[last := before[last].(seat := |ids|)]
  }

  function ArrangeError(cs: Classes, id: nat, count: nat): Option<StoreError> {
    if id !in cs then Some(Missing) else if count > Capacity(cs[id]) then Some(TooManyStudents) else None
  }

  function AfterArrange(ss: Students, cs: Classes, id: nat, ids: seq<nat>): Students
    requires forall k :: k in ids ==> k in ss
  {
    if ArrangeError(cs, id, |ids|).None? then SeatInOrder(Cleared(ss, cs[id].name), ids) else ss
  }

  // The first n of the roster have seats 1..n, the others of the class none, and
  // everybody else what they had.
  ghost predicate Arranging(t: Students, ss: Students, className: string, ids: seq<nat>, n: nat)
    requires n <= |ids|
  {
    && t.Keys == ss.Keys
    && (forall i :: 0 <= i < |ids| ==> ids[i] in ss && t[ids[i]] == ss[ids[i]].(seat := if i < n then i + 1 else 0))
    && (forall k :: k in ss && ss[k].className != className ==> t[k] == ss[k])
  }

  lemma RosterDistinct(ids: seq<nat>, ss: Students, className: string, i: nat, j: nat)
    requires IsRoster(ids, ss, className) && i < |ids| && j < |ids| && ids[i] == ids[j]
    ensures i == j
  {
    assert i < j ==> Before(ss, ids[i], ids[j]);
    assert j < i ==> Before(ss, ids[j], ids[i]);
  }

  lemma ClearedIsStart(ss: Students, className: string, ids: seq<nat>)
    requires IsRoster(ids, ss, className)
    ensures Arranging(Cleared(ss, className), ss, className, ids, 0)
  {
    forall i | 0 <= i < |ids|
      ensures ids[i] in ss && ss[ids[i]].className == className
    {
      assert ids[i] in Members(ss, className);
    }
  }

  lemma ArrangingStep(t: Students, ss: Students, className: string, ids: seq<nat>, n: nat)
    requires IsRoster(ids, ss, className) && n < |ids| && Arranging(t, ss, className, ids, n)
    ensures Arranging(t[ids[n] := t[ids[n]].(seat := n + 1)], ss, className, ids, n + 1)
  {
    assert ids[n] in Members(ss, className);
    var t' := t[ids[n] := t[ids[n]].(seat := n + 1)];
    forall i | 0 <= i < |ids|
      ensures t'[ids[i]] == ss[ids[i]].(seat := if i < n + 1 then i + 1 else 0)
    {
      if ids[i] == ids[n] {
        RosterDistinct(ids, ss, className, i, n);
      }
    }
  }

  lemma {:induction false} SeatInOrderArranges(ss: Students, className: string, ids: seq<nat>, n: nat)
    requires IsRoster(ids, ss, className) && n <= |ids|
    ensures forall k :: k in ids[..n] ==> k in Cleared(ss, className)
    ensures Arranging(SeatInOrder(Cleared(ss, className), ids[..n]), ss, className, ids, n)
  {
    forall k | k in ids[..n]
      ensures k in Cleared(ss, className)
    {
      assert k in Members(ss, className);
    }
    if n == 0 {
      ClearedIsStart(ss, className, ids);
    } else {
      SeatInOrderArranges(ss, className, ids, n - 1);
      assert ids[..n][..n - 1] == ids[..n - 1];
      ArrangingStep(SeatInOrder(Cleared(ss, className), ids[..n - 1]), ss, className, ids, n - 1);
    }
  }

  // At every stage of the arranging, seats are unique.
  lemma ArrangingKeepsUnique(t: Students, ss: Students, className: string, ids: seq<nat>, n: nat)
    requires UniqueSeats(ss) && IsRoster(ids, ss, className) && n <= |ids| && Arranging(t, ss, className, ids, n)
    ensures UniqueSeats(t)
  {
    forall k | k in ss
      ensures t[k].className == ss[k].className && (ss[k].className == className ==> k in ids)
    {
      if ss[k].className == className {
        assert k in Members(ss, className) && k in ids;
        var i :| 0 <= i < |ids| && ids[i] == k;
      }
    }
    forall a, b | a in t && b in t && a != b && t[a].seat > 0 && t[a].className == t[b].className
      ensures t[a].seat != t[b].seat
    {
      if t[a].className == className {
        var i :| 0 <= i < |ids| && ids[i] == a;
        var j :| 0 <= j < |ids| && ids[j] == b;
      }
    }
  }

  // One more seat handed out, within the index.
  lemma SeatNext(ss: Students, className: string, ids: seq<nat>, i: nat)
    requires UniqueSeats(ss) && IsRoster(ids, ss, className) && i < |ids|
    ensures forall k :: k in ids[..i + 1] ==> k in Cleared(ss, className)
    ensures forall k :: k in ids[..i] ==> k in Cleared(ss, className)
    ensures ids[i] in SeatInOrder(Cleared(ss, className), ids[..i])
    ensures SeatInOrder(Cleared(ss, className), ids[..i + 1]) ==
              Seated(SeatInOrder(Cleared(ss, className), ids[..i]), ids[i], i + 1)
    ensures UniqueSeats(SeatInOrder(Cleared(ss, className), ids[..i + 1]))
  {
    SeatInOrderArranges(ss, className, ids, i);
    SeatInOrderArranges(ss, className, ids, i + 1);
    assert ids[..i + 1][..i] == ids[..i];
    assert ids[..i + 1][i] in ids[..i + 1];
    ArrangingKeepsUnique(SeatInOrder(Cleared(ss, className), ids[..i + 1]), ss, className, ids, i + 1);
  }

  lemma ArrangeKeepsValid(ss: Students, cs: Classes, id: nat, ids: seq<nat>)
    requires Valid(ss, cs) && (id in cs ==> IsRoster(ids, ss, cs[id].name))
    requires forall k :: k in ids ==> k in ss
    ensures Valid(AfterArrange(ss, cs, id, ids), cs)
  {
    if ArrangeError(cs, id, |ids|).None? {
      var name, t := cs[id].name, AfterArrange(ss, cs, id, ids);
      SeatInOrderArranges(ss, name, ids, |ids|);
      assert ids[..|ids|] == ids;
      ArrangingKeepsUnique(t, ss, name, ids, |ids|);
      forall k | k in t
        ensures t[k].no == ss[k].no && (t[k].seat > 0 ==> Seatable(cs, t[k].className, t[k].seat))
      {
        if ss[k].className == name {
          assert k in Members(ss, name) && k in ids;
          var i :| 0 <= i < |ids| && ids[i] == k;
          assert t[k].seat <= Capacity(cs[id]);
        }
      }
    }
  }

  // Arranging hands out the seats 1..n in the order of the student numbers, and
  // changes nothing else.
  lemma ArrangedByNumber(ss: Students, cs: Classes, id: nat, ids: seq<nat>)
    requires id in cs && IsRoster(ids, ss, cs[id].name) && |ids| <= Capacity(cs[id])
    ensures forall k :: k in ids ==> k in ss
    ensures var t := AfterArrange(ss, cs, id, ids);
            && t.Keys == ss.Keys
            && (forall i :: 0 <= i < |ids| ==> t[ids[i]] == ss[ids[i]].(seat := i + 1))
            && (forall k :: k in ss && ss[k].className != cs[id].name ==> t[k] == ss[k])
            && (forall a, b :: a in ids && b in ids && Before(ss, a, b) ==> t[a].seat < t[b].seat)
  {
    SeatInOrderArranges(ss, cs[id].name, ids, |ids|);
    assert ids[..|ids|] == ids;
    forall k | k in ids
      ensures k in ss
    {
      assert k in Members(ss, cs[id].name);
    }
    var t := AfterArrange(ss, cs, id, ids);
    forall a, b | a in ids && b in ids && Before(ss, a, b)
      ensures t[a].seat < t[b].seat
    {
      var i :| 0 <= i < |ids| && ids[i] == a;
      var j :| 0 <= j < |ids| && ids[j] == b;
      if j < i {
        assert Before(ss, b, a);
        TextOrder(ss[a].no, ss[b].no);
      }
    }
  }
}
