// The attendance table (internal/store/attendance.go): one row per student and
// day. A statement that fails changes nothing.
module Attendance {
  import opened Prelude

  datatype Row = Row(checkedAt: int, lastSeenAt: int, count: int, similarity: real)

  type Table = map<(nat, string), Row>

  // The statement of MarkAttendance that fails, if any. RowsAffected and the
  // closing SELECT fail after a row has been written.
  datatype Fault = NoFault | InsertFails | RowsAffectedFails | UpdateFails | SelectFails

  datatype Marked = Marked(row: Row, created: bool)

  // What the caller reads back: legacy zero columns are filled in.
  function Shown(row: Row): Row {
    row.(lastSeenAt := if row.lastSeenAt == 0 then row.checkedAt else row.lastSeenAt,
         count := if row.count < 1 then 1 else row.count)
  }

  // Whether a call stores anything: the row itself, or one more recognition.
  predicate Stores(t: Table, enrolled: set<nat>, student: nat, day: string, fault: Fault) {
    if (student, day) in t then fault.NoFault? || fault.SelectFails?
    else student in enrolled && !fault.InsertFails?
  }

  function RowAfter(t: Table, student: nat, day: string, similarity: real, now: int): Row {
    if (student, day) in t then
      var row := t[(student, day)];
      row.(lastSeenAt := now, count := if row.count < 1 then 2 else row.count + 1)
    else Row(now, now, 1, similarity)
  }

  function TableAfter(t: Table, enrolled: set<nat>, student: nat, day: string, similarity: real, now: int,
                      fault: Fault): Table {
    if Stores(t, enrolled, student, day, fault)
    then t[(student, day) := RowAfter(t, student, day, similarity, now)] else t
  }

  // Whether the call reports success: it stored, and no later statement failed.
  predicate Succeeds(t: Table, enrolled: set<nat>, student: nat, day: string, fault: Fault) {
    Stores(t, enrolled, student, day, fault) && student in enrolled
    && (fault.NoFault? || (fault.UpdateFails? && (student, day) !in t))
  }

  class AttendanceTable {
    var rows: Table
    var enrolled: set<nat>

    constructor (enrolled: set<nat>)
      ensures rows == map[] && this.enrolled == enrolled
    {
      rows, this.enrolled := map[], enrolled;
    }

    // INSERT OR IGNORE: an existing row is left alone, a missing student breaks
    // the foreign key.
    method InsertOrIgnore(student: nat, day: string, row: Row) returns (affected: Option<nat>)
      modifies this`rows
      ensures affected == (if (student, day) in old(rows) then Some(0)
                           else if student in enrolled then Some(1) else None)
      ensures rows == if affected == Some(1) then old(rows)[(student, day) := row] else old(rows)
    {
      if (student, day) in rows {
        affected := Some(0);
      } else if student in enrolled {
        rows := rows[(student, day) := row];
        affected := Some(1);
      } else {
        affected := None;
      }
    }

    method MarkAttendance(student: nat, day: string, similarity: real, now: int, fault: Fault)
      returns (result: Result<Marked, ()>)
      modifies this`rows
      ensures rows == TableAfter(old(rows), enrolled, student, day, similarity, now, fault)
      ensures result.Ok? <==> Succeeds(old(rows), enrolled, student, day, fault)
      ensures result.Ok? ==> (student, day) in rows && result.value.row == Shown(rows[(student, day)])
                             && (result.value.created <==> (student, day) !in old(rows))
      // A first call checks in, a later one counts, unless the statement that writes fails.
      ensures (student, day) !in old(rows) && student in enrolled && fault != InsertFails ==>
                rows == old(rows)[(student, day) := Row(now, now, 1, similarity)]
      ensures (student, day) in old(rows) && (fault == NoFault || fault == SelectFails) ==>
                var row := old(rows)[(student, day)];
                rows == old(rows)[(student, day) := row.(lastSeenAt := now,
                                                         count := if row.count < 1 then 2 else row.count + 1)]
      ensures (student, day) !in old(rows) && (student !in enrolled || fault == InsertFails) ==> rows == old(rows)
      ensures (student, day) in old(rows) && fault != NoFault && fault != SelectFails ==> rows == old(rows)
      ensures result.Ok? <==> student in enrolled
                              && (fault == NoFault || (fault == UpdateFails && (student, day) !in old(rows)))
      ensures result.Ok? ==>
                var read, row := result.value.row, rows[(student, day)];
                && read.checkedAt == row.checkedAt && read.count == row.count && read.similarity == row.similarity
                && read.lastSeenAt == if now == 0 then row.checkedAt else now
    {
      if fault.InsertFails? {
        return Err(());
      }
      var affected := InsertOrIgnore(student, day, Row(now, now, 1, similarity));
      if affected.None? || fault.RowsAffectedFails? {
        return Err(());
      }
      var created := affected.value == 1;
      if !created {
        if fault.UpdateFails? {
          return Err(());
        }
        var row := rows[(student, day)];
        rows := rows[(student, day) := row.(lastSeenAt := now, count := if row.count < 1 then 2 else row.count + 1)];
      }
      if fault.SelectFails? || student !in enrolled {
        return Err(());
      }
      return Ok(Marked(Shown(rows[(student, day)]), created));
    }
  }

  // ---- Runs of calls, with students coming and going in between ----

  datatype Call = Call(student: nat, day: string, similarity: real, now: int, fault: Fault)

  datatype Db = Db(rows: Table, enrolled: set<nat>)

  datatype Event = Mark(call: Call) | Enrol(student: nat) | Remove(student: nat)

  // Every row belongs to an enrolled student.
  ghost predicate ForeignKeys(db: Db) {
    forall key :: key in db.rows ==> key.0 in db.enrolled
  }

  predicate CallStores(db: Db, c: Call) {
    Stores(db.rows, db.enrolled, c.student, c.day, c.fault)
  }

  predicate CallSucceeds(db: Db, c: Call) {
    Succeeds(db.rows, db.enrolled, c.student, c.day, c.fault)
  }

  // Removing a student takes the rows along.
  function AfterEvent(db: Db, e: Event): Db {
    match e
    case Mark(c) => db.(rows := TableAfter(db.rows, db.enrolled, c.student, c.day, c.similarity, c.now, c.fault))
    case Enrol(student) => db.(enrolled := db.enrolled + {student})
    case Remove(student) => Db(map key | key in db.rows && key.0 != student :: db.rows[key], db.enrolled - {student})
  }

  function RunEvents(db: Db, events: seq<Event>): Db {
    if events == [] then db else AfterEvent(RunEvents(db, events[..|events| - 1]), events[|events| - 1])
  }

  // The calls that stored something for the key since its student was last removed.
  function StoredCalls(db: Db, events: seq<Event>, key: (nat, string)): seq<Call> {
    if events == [] then []
    else
      var before, e := events[..|events| - 1], events[|events| - 1];
      if e.Remove? && e.student == key.0 then []
      else if e.Mark? && (e.call.student, e.call.day) == key && CallStores(RunEvents(db, before), e.call)
      then StoredCalls(db, before, key) + [e.call] else StoredCalls(db, before, key)
  }

  // Those that reported success to their callers.
  function ReportedCalls(db: Db, events: seq<Event>, key: (nat, string)): seq<Call> {
    if events == [] then []
    else
      var before, e := events[..|events| - 1], events[|events| - 1];
      if e.Remove? && e.student == key.0 then []
      else if e.Mark? && (e.call.student, e.call.day) == key && CallSucceeds(RunEvents(db, before), e.call)
      then ReportedCalls(db, before, key) + [e.call] else ReportedCalls(db, before, key)
  }

  // The row the run started with, unless its student has been removed since.
  function StartingRow(db: Db, events: seq<Event>, key: (nat, string)): Option<Row> {
    if events == [] then if key in db.rows then Some(db.rows[key]) else None
    else
      var before, e := events[..|events| - 1], events[|events| - 1];
      if e.Remove? && e.student == key.0 then None else StartingRow(db, before, key)
  }

  // What storing calls make of a row: one recognition each, the last one sets the
  // last-seen time, and without a row the first one sets check-in and similarity.
  function Counted(start: Option<Row>, stored: seq<Call>): Option<Row> {
    if stored == [] then start
    else
      var last := stored[|stored| - 1].now;
      match start
      case None => Some(Row(stored[0].now, last, |stored|, stored[0].similarity))
      case Some(row) => Some(row.(lastSeenAt := last, count := Shown(row).count + |stored|))
  }

  lemma {:induction false} CountsStoredCalls(db: Db, events: seq<Event>, key: (nat, string))
    ensures var rows := RunEvents(db, events).rows;
            (if key in rows then Some(rows[key]) else None)
              == Counted(StartingRow(db, events, key), StoredCalls(db, events, key))
  {
    if events != [] {
      CountsStoredCalls(db, events[..|events| - 1], key);
    }
  }

  // The statements that fail after a row has been written.
  predicate FailsLate(c: Call) {
    c.fault.SelectFails? || c.fault.RowsAffectedFails?
  }

  function Timely(calls: seq<Call>): (r: seq<Call>)
    ensures |r| <= |calls|
    ensures |r| == |calls| <==> forall c :: c in calls ==> !FailsLate(c)
  {
    if calls == [] then []
    else
      var c := calls[|calls| - 1];
      assert calls == calls[..|calls| - 1] + [c];
      if FailsLate(c) then Timely(calls[..|calls| - 1]) else Timely(calls[..|calls| - 1]) + [c]
  }

  lemma {:induction false} RunKeepsForeignKeys(db: Db, events: seq<Event>)
    requires ForeignKeys(db)
    ensures ForeignKeys(RunEvents(db, events))
  {
    if events != [] {
      RunKeepsForeignKeys(db, events[..|events| - 1]);
    }
  }

  lemma SucceedsIff(db: Db, c: Call)
    requires ForeignKeys(db)
    ensures CallSucceeds(db, c) <==> CallStores(db, c) && !FailsLate(c)
  {
  }

  lemma TimelyNext(calls: seq<Call>, c: Call)
    ensures Timely(calls + [c]) == if FailsLate(c) then Timely(calls) else Timely(calls) + [c]
  {
    assert (calls + [c])[..|calls|] == calls;
  }

  // The calls reported as successes are those that stored, without the ones that
  // failed late.
  lemma {:induction false} ReportedAreStored(db: Db, events: seq<Event>, key: (nat, string))
    requires ForeignKeys(db)
    ensures ReportedCalls(db, events, key) == Timely(StoredCalls(db, events, key))
  {
    if events != [] {
      var before, e := events[..|events| - 1], events[|events| - 1];
      ReportedAreStored(db, before, key);
      RunKeepsForeignKeys(db, before);
      if e.Mark? {
        SucceedsIff(RunEvents(db, before), e.call);
        TimelyNext(StoredCalls(db, before, key), e.call);
      }
    }
  }

  // The count a caller reads.
  function CountIn(row: Option<Row>): nat {
    match row
    case None => 0
    case Some(row) => Shown(row).count
  }

  // A day's count grows by the number of reported successes exactly if no call
  // that stored failed late; otherwise it grows by more.
  lemma CountsReportedIff(db: Db, events: seq<Event>, key: (nat, string))
    requires ForeignKeys(db)
    ensures var rows := RunEvents(db, events).rows;
            var reported, stored := ReportedCalls(db, events, key), StoredCalls(db, events, key);
            var before := CountIn(StartingRow(db, events, key));
            var after := if key in rows then Shown(rows[key]).count else 0;
            && before + |reported| <= after == before + |stored|
            && (after == before + |reported| <==> forall c :: c in stored ==> !FailsLate(c))
  {
    CountsStoredCalls(db, events, key);
    ReportedAreStored(db, events, key);
  }

  // It happens: a call stores and reports an error, so the caller tries again; the
  // row then counts two recognitions for one reported success.
  lemma StoredButReportedAsFailed(student: nat, day: string, now: int)
    ensures var late, again := Call(student, day, 0.9, now, SelectFails), Call(student, day, 0.9, now + 1, NoFault);
            var db, events := Db(map[], {student}), [Mark(late), Mark(again)];
            && ReportedCalls(db, events, (student, day)) == [again]
            && StoredCalls(db, events, (student, day)) == [late, again]
            && (student, day) in RunEvents(db, events).rows && RunEvents(db, events).rows[(student, day)].count == 2
  {
    var late, again := Call(student, day, 0.9, now, SelectFails), Call(student, day, 0.9, now + 1, NoFault);
    var db, events := Db(map[], {student}), [Mark(late), Mark(again)];
    assert events[..1] == [Mark(late)] && events[..1][..0] == [];
    assert RunEvents(db, [Mark(late)]).rows == map[(student, day) := Row(now, now, 1, 0.9)];
    assert StoredCalls(db, [Mark(late)], (student, day)) == [late];
    assert ReportedCalls(db, [Mark(late)], (student, day)) == [];
  }
}
