// The operations on the tables of students and classes as the store performs
// them, statement by statement (internal/store/students.go,
// internal/store/classes.go). Every statement that writes a seat has the unique
// index as its precondition, so that no operation can fail because of it.
module SchoolStore {
  import opened Prelude
  import opened Sorting
  import opened School
  import opened ClassOrder
  import opened SchoolEffects

  // The error of a call that reads its row back at the end.
  function ReadBack(error: Option<StoreError>, readFails: bool): Option<StoreError> {
    if error.None? && readFails then Some(ReadFailed) else error
  }

  class Store {
    const clock: string -> Option<nat>
    var students: Students
    var classes: Classes

    constructor (clock: string -> Option<nat>)
      ensures students == map[] && classes == map[] && this.clock == clock && Valid(students, classes)
    {
      this.clock := clock;
      students, classes := map[], map[];
    }

    // ---- Statements ----

    // UPDATE students SET seat_no=? WHERE id=?
    method SetSeat(id: nat, seat: nat)
      requires id in students && UniqueSeats(Seated(students, id, seat))
      modifies this`students
      ensures students == Seated(old(students), id, seat)
    {
      students := students[id := students[id].(seat := seat)];
    }

    method FindSeat(className: string, seat: nat, except: nat) returns (found: Option<nat>)
      requires UniqueSeats(students) && seat > 0
      ensures found == Occupant(students, className, seat, except)
    {
      var todo := students.Keys;
      while todo != {}
        invariant todo <= students.Keys
        invariant forall k :: Sits(students, k, className, seat, except) ==> k in todo
        decreases todo
      {
        var k :| k in todo;
        if k != except && students[k].className == className && students[k].seat == seat {
          assert SeatUsed(students, className, seat, except);
          return Some(k);
        }
        todo := todo - {k};
      }
      assert forall k :: !Sits(students, k, className, seat, except);
      return None;
    }

    // UNIQUE(student_no).
    method NumberTakenBy(no: string, except: nat) returns (taken: bool)
      ensures taken == NumberUsed(students, no, except)
    {
      var todo := students.Keys;
      while todo != {}
        invariant todo <= students.Keys
        invariant forall k :: k in students && k != except && students[k].no == no ==> k in todo
        decreases todo
      {
        var k :| k in todo;
        if k != except && students[k].no == no {
          return true;
        }
        todo := todo - {k};
      }
      return false;
    }

    // INSERT or UPDATE of a whole row: fails if another row has the number.
    method WriteStudent(id: nat, row: Student) returns (written: bool)
      requires UniqueSeats(students[id := row])
      modifies this`students
      ensures written == !NumberUsed(old(students), row.no, id)
      ensures students == if written then old(students)[id := row] else old(students)
    {
      var taken := NumberTakenBy(row.no, id);
      if taken {
        return false;
      }
      students := students[id := row];
      return true;
    }

    // ---- Students ----

    method CreateStudent(id: nat, no: string, name: string, className: string) returns (error: Option<StoreError>)
      requires Valid(students, classes) && id !in students
      modifies this`students
      ensures Valid(students, classes)
      ensures error == CreateStudentError(old(students), id, no, name)
      ensures students == AfterCreateStudent(old(students), id, no, name, className)
      ensures error.None? <==> no != "" && name != "" && NumberFree(old(students), no, id)
      ensures error == Some(EmptyText) <==> no == "" || name == ""
      ensures students == if error.None? then old(students)[id := Student(no, name, className, 0)] else old(students)
    {
      CreateStudentKeepsValid(students, classes, id, no, name, className);
      if no == "" || name == "" {
        return Some(EmptyText);
      }
      SetSeatKeepsSeats(students, classes, id, Student(no, name, className, 0));
      var written := WriteStudent(id, Student(no, name, className, 0));
      return if written then None else Some(NumberTaken);
    }

    // `readFails`: the row cannot be read back after the change was committed.
    method UpdateStudentProfile(id: nat, no: string, name: string, className: string, readFails: bool)
      returns (error: Option<StoreError>)
      requires Valid(students, classes)
      modifies this`students
      ensures Valid(students, classes)
      ensures error == ReadBack(ProfileError(old(students), id, no, name, className), readFails)
      ensures students == AfterProfile(old(students), id, no, name, className)
      // The row is written exactly if there is no error, or none but that of reading it back.
      ensures (error.None? || error == Some(ReadFailed)) <==>
              ProfileFits(old(students), id, no, name, className)
      ensures if ProfileFits(old(students), id, no, name, className)
              then ProfileChanged(old(students), students, id, no, name, className)
              else students == old(students)
    {
      ProfileKeepsValid(students, classes, id, no, name, className);
      if id == 0 {
        return Some(InvalidId);
      }
      if no == "" || name == "" || className == "" {
        return Some(EmptyText);
      }
      if id !in students {
        return Some(Missing);
      }
      var seat := students[id].seat;
      if students[id].className != className {
        seat := 0;
      }
      ProfileRow(students, classes, id, no, name, className);
      var written := WriteStudent(id, Student(no, name, className, seat));
      return if !written then Some(NumberTaken) else if readFails then Some(ReadFailed) else None;
    }

    method UpdateStudentClass(id: nat, className: string) returns (error: Option<StoreError>)
      requires Valid(students, classes)
      modifies this`students
      ensures Valid(students, classes)
      ensures error == ChangeClassError(old(students), id, className)
      ensures students == AfterChangeClass(old(students), id, className)
      ensures error.None? <==> id > 0 && className != "" && id in old(students)
      ensures if error.Some? || className == old(students)[id].className then students == old(students)
              else OnlyRow(old(students), students, id)
                   && students[id] == old(students)[id].(className := className, seat := 0)
    {
      ChangeClassKeepsValid(students, classes, id, className);
      if id == 0 {
        return Some(InvalidId);
      }
      if className == "" {
        return Some(EmptyText);
      }
      if id !in students {
        return Some(Missing);
      }
      if students[id].className == className {
        return None;
      }
      students := students[id := students[id].(className := className, seat := 0)];
      return None;
    }

    method UpdateStudentSeat(id: nat, seat: int) returns (error: Option<StoreError>)
      requires Valid(students, classes)
      modifies this`students
      ensures Valid(students, classes)
      ensures error == SeatError(old(students), old(classes), id, seat)
      ensures students == AfterSeat(old(students), old(classes), id, seat)
      ensures error.None? <==> id > 0 && id in old(students)
                               && (seat == 0 || (seat > 0 && SeatFree(old(students), classes, id, seat)))
      ensures if error.None? then OnlyRow(old(students), students, id)
                                  && students[id] == old(students)[id].(seat := seat)
              else students == old(students)
    {
      SeatMeans(students, classes, id, seat);
      SeatKeepsValid(students, classes, id, seat);
      if id == 0 {
        return Some(InvalidId);
      }
      if seat < 0 {
        return Some(NegativeSeat);
      }
      if id !in students {
        return Some(Missing);
      }
      if seat == 0 {
        SetSeat(id, 0);
        return None;
      }
      var className := students[id].className;
      var found := FindClass(classes, className);
      if found.None? {
        return Some(NoSuchClass);
      }
      if seat > Capacity(classes[found.value]) {
        OneClass(classes, found.value, seat);
        return Some(SeatTooHigh);
      }
      assert Seatable(classes, className, seat);
      var occupant := FindSeat(className, seat, id);
      if occupant.Some? {
        return Some(SeatOccupied);
      }
      SetSeat(id, seat);
      return None;
    }

    method MoveStudentSeatInClass(classId: nat, id: nat, target: int) returns (error: Option<StoreError>,
                                  swapped: Option<nat>)
      requires Valid(students, classes)
      modifies this`students
      ensures Valid(students, classes)
      ensures error == MoveError(old(students), old(classes), classId, id, target)
      ensures error.None? ==> swapped == Displaced(old(students), id, target)
      ensures students == AfterMove(old(students), old(classes), classId, id, target)
      ensures error.None? <==> MayMove(old(students), classes, classId, id, target)
      ensures if error.None? then SeatMoved(old(students), students, id, target) else students == old(students)
    {
      MoveMeans(students, classes, classId, id, target);
      MoveKeepsValid(students, classes, classId, id, target);
      swapped := None;
      if classId == 0 || id == 0 {
        return Some(InvalidId), None;
      }
      if target < 0 {
        return Some(NegativeSeat), None;
      }
      if classId !in classes {
        return Some(Missing), None;
      }
      if target > Capacity(classes[classId]) {
        return Some(SeatTooHigh), None;
      }
      if id !in students {
        return Some(Missing), None;
      }
      if students[id].className != classes[classId].name {
        return Some(NotInClass), None;
      }
      var source := students[id].seat;
      error := None;
      if source == target {
        assert students[id := students[id].(seat := target)] == students;
        return;
      }
      if target > 0 {
        swapped := FindSeat(classes[classId].name, target, id);
      }
      assert Seatable(classes, students[id].className, target);
      Exchanged(id, target, swapped);
    }

    // The three updates of a move.
    method Exchanged(id: nat, target: nat, swapped: Option<nat>)
      requires SeatsValid(students, classes) && id in students && Seatable(classes, students[id].className, target)
      requires students[id].seat != target && swapped == Displaced(students, id, target)
      modifies this`students
      ensures students == Exchange(old(students), id, target, swapped)
    {
      var source := students[id].seat;
      ExchangeStatements(students, classes, id, target);
      ExchangeInSteps(students, id, target, swapped);
      if swapped.Some? {
        SetSeat(swapped.value, 0);
      }
      SetSeat(id, target);
      if swapped.Some? && source > 0 {
        SetSeat(swapped.value, source);
      }
    }

    method DeleteStudent(id: nat) returns (error: Option<StoreError>)
      requires Valid(students, classes)
      modifies this`students
      ensures Valid(students, classes)
      ensures error == DeleteStudentError(old(students), id) && students == old(students) - {id}
      ensures error.None? <==> id in old(students)
    {
      DeleteStudentKeepsValid(students, classes, id);
      if id !in students {
        assert students - {id} == students;
        return Some(Missing);
      }
      students := students - {id};
      return None;
    }

    // ---- Classes ----

    // UNIQUE(name).
    method NameTakenBy(name: string, except: nat) returns (taken: bool)
      ensures taken == NameUsed(classes, name, except)
    {
      var todo := classes.Keys;
      while todo != {}
        invariant todo <= classes.Keys
        invariant forall c :: c in classes && c != except && classes[c].name == name ==> c in todo
        decreases todo
      {
        var c :| c in todo;
        if c != except && classes[c].name == name {
          return true;
        }
        todo := todo - {c};
      }
      return false;
    }

    method WriteClass(id: nat, row: Class) returns (written: bool)
      modifies this`classes
      ensures written == !NameUsed(old(classes), row.name, id)
      ensures classes == if written then old(classes)[id := row] else old(classes)
    {
      var taken := NameTakenBy(row.name, id);
      if taken {
        return false;
      }
      classes := classes[id := row];
      return true;
    }

    // COALESCE((SELECT MAX(sort_order)+1 FROM classes), 1)
    method FreshOrder() returns (order: int)
      ensures NextOrder(classes, order)
    {
      if classes == map[] {
        return 1;
      }
      var first :| first in classes;
      order := classes[first].order + 1;
      var todo := classes.Keys;
      while todo != {}
        invariant todo <= classes.Keys
        invariant forall c :: c in classes && c !in todo ==> classes[c].order < order
        invariant exists c :: c in classes && classes[c].order == order - 1
        decreases todo
      {
        var c :| c in todo;
        if classes[c].order >= order {
          order := classes[c].order + 1;
        }
        todo := todo - {c};
      }
    }

    method Normalize(name: string, rows: int, perRow: int, lateAfter: string,
                     deadline: string) returns (error: Option<StoreError>)
      ensures error == SettingsError(clock, name, rows, perRow, lateAfter, deadline)
    {
      if name == "" {
        return Some(EmptyText);
      }
      if |name| > MAX_NAME {
        return Some(NameTooLong);
      }
      if rows <= 0 || perRow <= 0 || rows > MAX_SIDE || perRow > MAX_SIDE {
        return Some(BadLayout);
      }
      var late, end := Minutes(clock, lateAfter), Minutes(clock, deadline);
      if late.None? || end.None? {
        return Some(BadTime);
      }
      if late.value >= 0 && end.value >= 0 && late.value >= end.value {
        return Some(LateAfterDeadline);
      }
      return None;
    }

    method CreateClassWithSettings(id: nat, name: string, rows: int, perRow: int, lateAfter: string,
                                   deadline: string, readFails: bool)
      returns (error: Option<StoreError>, ghost order: int)
      requires Valid(students, classes) && id !in classes
      modifies this`classes
      ensures Valid(students, classes)
      ensures NextOrder(old(classes), order)
      ensures error == ReadBack(CreateClassError(old(classes), clock, name, rows, perRow, lateAfter, deadline),
                                readFails)
      ensures classes == AfterCreateClass(old(classes), clock, id, order, name, rows, perRow, lateAfter, deadline)
    {
      var seatRows := if rows == 0 then DEFAULT_ROWS else rows;
      var seatsPerRow := if perRow == 0 then DEFAULT_PER_ROW else perRow;
      var next := FreshOrder();
      order := next;
      CreateClassKeepsValid(students, classes, clock, id, order, name, rows, perRow, lateAfter, deadline);
      error := Normalize(name, seatRows, seatsPerRow, lateAfter, deadline);
      if error.Some? {
        return;
      }
      var written := WriteClass(id, Class(name, next, seatRows, seatsPerRow, lateAfter, deadline));
      error := if !written then Some(ClassNameTaken) else if readFails then Some(ReadFailed) else None;
    }

    // SELECT COUNT(*),MAX(seat_no).
    method CountMembers(className: string, capacity: nat) returns (count: nat, beyond: bool)
      ensures count == |Members(students, className)| && beyond == SeatBeyond(students, className, capacity)
    {
      var members := Members(students, className);
      count := |members|;
      beyond := false;
      var todo := members;
      while todo != {}
        invariant todo <= members
        invariant forall k :: k in members && k !in todo ==> students[k].seat <= capacity
        decreases todo
      {
        var k :| k in todo;
        if students[k].seat > capacity {
          return count, true;
        }
        todo := todo - {k};
      }
      assert forall k :: k in students && students[k].className == className ==> k in members;
    }

    method UpdateClassSettings(id: nat, name: string, rows: int, perRow: int, lateAfter: string, deadline: string,
                               readFails: bool)
      returns (error: Option<StoreError>)
      requires Valid(students, classes)
      modifies this`students, this`classes
      ensures Valid(students, classes)
      ensures error == ReadBack(UpdateClassError(old(students), old(classes), clock, id, name, rows, perRow,
                                                 lateAfter, deadline), readFails)
      ensures (students, classes) == AfterUpdateClass(old(students), old(classes), clock, id, name, rows, perRow,
                                                      lateAfter, deadline)
    {
      UpdateClassKeepsValid(students, classes, clock, id, name, rows, perRow, lateAfter, deadline);
      error := CheckSettings(id, name, rows, perRow, lateAfter, deadline);
      if error.Some? {
        return;
      }
      error := ApplySettings(id, Class(name, classes[id].order, rows, perRow, lateAfter, deadline));
      if error.None? && readFails {
        error := Some(ReadFailed);
      }
    }

    method CheckSettings(id: nat, name: string, rows: int, perRow: int, lateAfter: string, deadline: string)
      returns (error: Option<StoreError>)
      ensures error == SettingsRefused(students, classes, clock, id, name, rows, perRow, lateAfter, deadline)
    {
      error := Normalize(name, rows, perRow, lateAfter, deadline);
      if error.Some? {
        return;
      }
      if id !in classes {
        return Some(Missing);
      }
      var count, beyond := CountMembers(classes[id].name, rows * perRow);
      if count > rows * perRow {
        return Some(TooManyStudents);
      }
      if beyond {
        return Some(SeatBeyondLayout);
      }
      return None;
    }

    // The two updates of the transaction.
    method ApplySettings(id: nat, row: Class) returns (error: Option<StoreError>)
      requires Valid(students, classes) && id in classes
      modifies this`students, this`classes
      ensures var taken := NameUsed(old(classes), row.name, id);
              && error == (if taken then Some(ClassNameTaken) else None)
              && classes == (if taken then old(classes) else old(classes)[id := row])
              && students == if taken then old(students) else Renamed(old(students), old(classes)[id].name, row.name)
    {
      ghost var before := classes;
      var oldName := classes[id].name;
      var written := WriteClass(id, row);
      if !written {
        return Some(ClassNameTaken);
      }
      if oldName != row.name {
        RenameMembers(oldName, row.name, id, before);
      } else {
        assert Renamed(students, oldName, row.name) == students;
      }
      return None;
    }

    // UPDATE students SET class_name=? row by row, in any order.
    method RenameMembers(oldName: string, name: string, id: nat, ghost before: Classes)
      requires SeatsValid(students, before) && id in before && before[id].name == oldName
      requires UniqueNames(before) && !NameUsed(before, name, id)
      modifies this`students
      ensures students == Renamed(old(students), oldName, name)
    {
      var todo := Members(students, oldName);
      ghost var members := todo;
      assert students == RenamedIn(students, name, members - todo);
      while todo != {}
        invariant todo <= members && students == RenamedIn(old(students), name, members - todo)
        decreases todo
      {
        var k :| k in todo;
        RenameKeepsUniqueSeats(old(students), before, oldName, name, id, members - (todo - {k}));
        RenamedOneMore(old(students), name, members, todo, k);
        SetClassName(k, name);
        todo := todo - {k};
      }
      assert students == Renamed(old(students), oldName, name);
    }

    static lemma RenamedOneMore(ss: Students, name: string, members: set<nat>, todo: set<nat>, k: nat)
      requires k in todo && todo <= members <= ss.Keys
      ensures var renamed := RenamedIn(ss, name, members - todo);
              && k in renamed
              && RenamedIn(ss, name, members - (todo - {k})) == renamed[k := renamed[k].(className := name)]
    {
    }

    method SetClassName(id: nat, name: string)
      requires id in students && UniqueSeats(students[id := students[id].(className := name)])
      modifies this`students
      ensures students == old(students)[id := old(students)[id].(className := name)]
    {
      students := students[id := students[id].(className := name)];
    }

    method DeleteClass(id: nat) returns (error: Option<StoreError>)
      requires Valid(students, classes)
      modifies this`classes
      ensures Valid(students, classes)
      ensures error == DeleteClassError(old(students), old(classes), id)
      ensures classes == AfterDeleteClass(old(students), old(classes), id)
    {
      DeleteClassKeepsValid(students, classes, id);
      if id !in classes {
        return Some(Missing);
      }
      if Members(students, classes[id].name) != {} {
        return Some(ClassNotEmpty);
      }
      classes := classes - {id};
      return None;
    }

    // SELECT id ... ORDER BY student_no,id
    method Roster(className: string) returns (ids: seq<nat>)
      ensures IsRoster(ids, students, className) && forall k :: k in ids ==> k in students
    {
      var members := Members(students, className);
      var rows: seq<(string, nat)> := [];
      var todo := members;
      while todo != {}
        invariant todo <= members
        invariant forall row :: row in rows <==> row.1 in members - todo && row.0 == students[row.1].no
        invariant forall i, j :: 0 <= i < j < |rows| ==> rows[i] != rows[j]
        decreases todo
      {
        var k :| k in todo;
        rows := rows + [(students[k].no, k)];
        todo := todo - {k};
      }
      RowOrder();
      var sorted := SortBy(rows, RowLe);
      RosterOf(sorted, rows, students, className);
      ids := seq(|sorted|, i requires 0 <= i < |sorted| => sorted[i].1);
      assert forall k :: k in ids ==> k in members;
    }

    method AutoArrangeSeats(id: nat) returns (error: Option<StoreError>, ghost roster: seq<nat>)
      requires Valid(students, classes)
      modifies this`students
      ensures Valid(students, classes)
      ensures forall k :: k in roster ==> k in old(students)
      ensures id in classes ==> IsRoster(roster, old(students), classes[id].name)
      ensures error == ArrangeError(classes, id, |roster|)
      ensures students == AfterArrange(old(students), classes, id, roster)
    {
      if id !in classes {
        return Some(Missing), [];
      }
      var name := classes[id].name;
      var ids := Roster(name);
      roster := ids;
      ArrangeKeepsValid(students, classes, id, ids);
      if |ids| > Capacity(classes[id]) {
        return Some(TooManyStudents), ids;
      }
      ClearSeats(name);
      SeatAll(name, ids, old(students));
      return None, ids;
    }

    // UPDATE students SET seat_no=0, row by row.
    method ClearSeats(className: string)
      requires UniqueSeats(students)
      modifies this`students
      ensures students == Cleared(old(students), className)
    {
      var todo := Members(students, className);
      while todo != {}
        invariant todo <= Members(old(students), className) && students.Keys == old(students).Keys
                  && UniqueSeats(students)
        invariant forall k :: k in students ==>
                    students[k] == if k in Members(old(students), className) - todo
                                   then old(students)[k].(seat := 0) else old(students)[k]
        decreases todo
      {
        var k :| k in todo;
        SetSeat(k, 0);
        todo := todo - {k};
      }
    }

    method SeatAll(className: string, ids: seq<nat>, ghost before: Students)
      requires UniqueSeats(before) && IsRoster(ids, before, className) && students == Cleared(before, className)
      modifies this`students
      ensures forall k :: k in ids ==> k in Cleared(before, className)
      ensures students == SeatInOrder(Cleared(before, className), ids)
    {
      SeatInOrderArranges(before, className, ids, 0);
      for i := 0 to |ids|
        invariant forall k :: k in ids[..i] ==> k in Cleared(before, className)
        invariant students == SeatInOrder(Cleared(before, className), ids[..i])
      {
        SeatNext(before, className, ids, i);
        SetSeat(ids[i], i + 1);
      }
      assert ids[..|ids|] == ids;
    }

    method MoveClass(id: nat, direction: string) returns (error: Option<StoreError>)
      requires Valid(students, classes)
      modifies this`classes
      ensures Valid(students, classes)
      ensures error == MoveClassError(old(classes), id, direction)
      ensures classes == if error.None? then MovedTo(old(classes), id, direction == "up") else old(classes)
      ensures error.None? <==> id in old(classes) && (direction == "up" || direction == "down")
    {
      if direction != "up" && direction != "down" {
        return Some(BadDirection);
      }
      if id !in classes {
        return Some(Missing);
      }
      var up := direction == "up";
      MoveClassKeepsValid(students, classes, id, up);
      var neighbor := FindNeighbor(id, up);
      if neighbor.None? {
        return None;
      }
      MovedToNeighbor(classes, id, up, neighbor.value);
      var currentOrder, neighborOrder := classes[id].order, classes[neighbor.value].order;
      classes := classes[id := classes[id].(order := neighborOrder)];
      classes := classes[neighbor.value := classes[neighbor.value].(order := currentOrder)];
      return None;
    }

    // SELECT ... ORDER BY sort_order,id LIMIT 1, towards the class.
    method FindNeighbor(id: nat, up: bool) returns (found: Option<nat>)
      requires id in classes
      ensures found.Some? ==> Neighbor(classes, id, up, found.value)
      ensures found.None? ==> !CanMove(classes, id, up)
    {
      found := None;
      var todo := classes.Keys;
      while todo != {}
        invariant todo <= classes.Keys
        invariant found.None? ==> forall c :: Beyond(classes, id, up, c) ==> c in todo
        invariant found.Some? ==>
                    Beyond(classes, id, up, found.value)
                    && forall c :: Beyond(classes, id, up, c) && c !in todo && c != found.value ==>
                         Nearer(classes, up, found.value, c)
        decreases todo
      {
        var c :| c in todo;
        if Beyond(classes, id, up, c) && (found.None? || Nearer(classes, up, c, found.value)) {
          found := Some(c);
        }
        todo := todo - {c};
      }
    }
  }
}
