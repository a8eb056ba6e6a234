// A run of four recognition requests at one door, with all its states, in which
// attendance of one track is recorded twice.
module OverlapRun {
  import opened Prelude
  import opened TrackNames
  import opened Liveness
  import opened Attendance
  import opened Recognition
  import opened Requests

  // A frame at the door that shows one student, with a live score of 0.9.
  function DoorFrame(student: nat, now: int, day: string): Frame {
    Frame("door", [Observation(student, 0.9, 0.9)], now, day, [])
  }

  function Nines(n: nat): seq<real> {
    seq(n, _ => 0.9)
  }

  // The student's track after n such frames.
  ghost predicate AtDoor(t: LiveTrack, n: nat, last: int) {
    && t.id == TrackId("door", 1) && t.firstSeen == 0 && t.lastSeen == last && t.scores == Nines(n)
    && t.verified == (n >= 3) && !t.rejected && !t.committed
  }

  lemma JudgeNines(n: nat)
    requires 1 <= n <= 3
    ensures Judge(Nines(n)) == if n == 3 then Live else Undecided
  {
    if n == 3 {
      var s := Nines(3);
      assert s == [0.9, 0.9, 0.9] && s[..2] == [0.9, 0.9] && s[..2][..1] == [0.9] && s[..2][..1][..0] == [];
      assert Sum([0.9, 0.9]) == 1.8 && LiveVotes([0.9, 0.9]) == 2;
      assert Average(s) == 0.9;
    }
  }

  lemma DoorStep(t: LiveTrack, n: nat, last: int, o: Observation, now: int)
    requires AtDoor(t, n, last) && n < 4 && o.liveScore == 0.9 && now < DECISION_TIMEOUT
    ensures var (u, timedOut) := StepTrack(t, o, now); !timedOut && AtDoor(u, n + 1, now)
  {
    assert LastSix(Nines(n) + [0.9]) == Nines(n + 1);
    if n < 3 {
      JudgeNines(n + 1);
    }
  }

  ghost predicate DoorState(s: State, student: nat, n: nat, last: int) {
    if n == 0 then "door" !in s.sessions
    else
      && "door" in s.sessions && s.sessions["door"].nextId == 1 && s.sessions["door"].tracks.Keys == {student}
      && AtDoor(s.sessions["door"].tracks[student], n, last)
  }

  lemma DoorSession(session: LiveSession, student: nat, n: nat, last: int, now: int)
    requires n < 4 && now < DECISION_TIMEOUT && now - last <= TRACK_TTL
    requires if n == 0 then session == LiveSession(map[], 0) && now == 0
             else session.nextId == 1 && session.tracks.Keys == {student} && AtDoor(session.tracks[student], n, last)
    ensures var (session', ds) := ObserveSession("door", session, [Observation(student, 0.9, 0.9)], now);
            && session'.nextId == 1 && session'.tracks.Keys == {student}
            && AtDoor(session'.tracks[student], n + 1, now)
            && |ds| == 1 && ds[0].trackId == TrackId("door", 1) && (Writes(ds[0]) <==> n + 1 >= 3)
  {
    var o := Observation(student, 0.9, 0.9);
    var live := session.(tracks := Unexpired(session.tracks, now));
    OneObserved("door", live, [o], now);
    DoorOne(live, student, n, last, o, now);
  }

  lemma NoneObserved(name: string, s: LiveSession, now: int)
    ensures ObserveAll(name, s, [], now) == (s, [])
  {
  }

  lemma OneObserved(name: string, s: LiveSession, os: seq<Observation>, now: int)
    requires |os| == 1
    ensures ObserveAll(name, s, os, now).0 == ObserveOne(name, s, os[0], now).0
    ensures ObserveAll(name, s, os, now).1 == [ObserveOne(name, s, os[0], now).1]
  {
    NoneObserved(name, s, now);
    ObserveAllNext(name, s, os, now, 0);
    assert os[..0] == [] && os[..1] == os;
  }

  lemma DoorOne(session: LiveSession, student: nat, n: nat, last: int, o: Observation, now: int)
    requires n < 4 && now < DECISION_TIMEOUT && o.student == student && o.liveScore == 0.9
    requires if n == 0 then session == LiveSession(map[], 0) && now == 0
             else session.nextId == 1 && session.tracks.Keys == {student} && AtDoor(session.tracks[student], n, last)
    ensures var (session', d) := ObserveOne("door", session, o, now);
            && session'.nextId == 1 && session'.tracks.Keys == {student}
            && AtDoor(session'.tracks[student], n + 1, now)
            && d.trackId == TrackId("door", 1) && (Writes(d) <==> n + 1 >= 3)
  {
    DoorStep(TrackFor("door", session, student, now), n, if n == 0 then 0 else last, o, now);
  }

  lemma DoorObserved(s: State, student: nat, n: nat, last: int, now: int, day: string)
    requires DoorState(s, student, n, last) && n < 4 && now < DECISION_TIMEOUT && now - last <= TRACK_TTL
    requires n == 0 ==> now == 0
    ensures var f := DoorFrame(student, now, day);
            var t, ds := AfterObserve(s, f), Observed(WorldOf(s), f).1;
            && DoorState(t, student, n + 1, now) && t.db == s.db
            && t.requests == s.requests + [Request(f, ds, 0, false, false)]
            && |ds| == 1 && ds[0].trackId == TrackId("door", 1) && (Writes(ds[0]) <==> n + 1 >= 3)
  {
    DoorSession(SessionOf(WorldOf(s), "door"), student, n, last, now);
  }

  lemma RunNext(db: Db, steps: seq<Step>, step: Step)
    ensures Run(db, steps + [step]) == After(Run(db, steps), step)
  {
    assert (steps + [step])[..|steps|] == steps;
  }

  lemma RunTwo(db: Db, steps: seq<Step>, a: Step, b: Step)
    ensures Run(db, steps + [a, b]) == After(After(Run(db, steps), a), b)
  {
    TwoMore(steps, a, b);
    RunNext(db, steps, a);
    RunNext(db, steps + [a], b);
  }

  lemma TwoMore(steps: seq<Step>, a: Step, b: Step)
    ensures steps + [a] + [b] == steps + [a, b]
  {
  }

  // After the first n frames, each with its own request, which had nothing to write.
  ghost predicate DoorBegun(s: State, student: nat, n: nat, last: int) {
    && DoorState(s, student, n, last) && s.db == Db(map[], {student})
    && |s.requests| == n && forall r :: 0 <= r < n ==> Through(s, r)
  }

  lemma DoorSkips(s: State, student: nat, n: nat, last: int, now: int, day: string)
    requires DoorBegun(s, student, n, last) && n < 2 && now < DECISION_TIMEOUT && now - last <= TRACK_TTL
    requires n == 0 ==> now == 0
    ensures DoorBegun(After(AfterObserve(s, DoorFrame(student, now, day)), Decide(n)), student, n + 1, now)
  {
    DoorObserved(s, student, n, last, now, day);
    var t := AfterObserve(s, DoorFrame(student, now, day));
    var u := After(t, Decide(n));
    assert u.requests == t.requests[n := t.requests[n].(next := 1)];
    forall r | 0 <= r < n + 1
      ensures Through(u, r)
    {
      assert r < n ==> Through(s, r);
    }
  }

  // The request of the r-th frame is to write.
  ghost predicate DoorAsks(s: State, r: nat, student: nat, day: string, now: int) {
    && r < |s.requests|
    && var q := s.requests[r];
       && |q.decisions| == 1 && Writes(q.decisions[0]) && q.decisions[0].trackId == TrackId("door", 1)
       && q == Request(DoorFrame(student, now, day), q.decisions, 0, false, false)
  }

  ghost predicate DoorOverlaps(s: State, student: nat, day: string) {
    && s.db == Db(map[], {student}) && |s.requests| == 4 && Through(s, 0) && Through(s, 1)
    && DoorAsks(s, 2, student, day, 200) && DoorAsks(s, 3, student, day, 300)
  }

  lemma DoorTwoFrames(s: State, student: nat, day: string)
    requires DoorBegun(s, student, 2, 100)
    ensures DoorOverlaps(AfterObserve(AfterObserve(s, DoorFrame(student, 200, day)), DoorFrame(student, 300, day)),
                         student, day)
  {
    assert Through(s, 0) && Through(s, 1);
    DoorFrameAsks(s, student, 2, 100, 200, day);
    DoorFrameAsks(AfterObserve(s, DoorFrame(student, 200, day)), student, 3, 200, 300, day);
  }

  // The request of a frame from the third on is to write.
  lemma DoorFrameAsks(s: State, student: nat, n: nat, last: int, now: int, day: string)
    requires DoorState(s, student, n, last) && 2 <= n < 4 && now < DECISION_TIMEOUT && now - last <= TRACK_TTL
    ensures var t, r := AfterObserve(s, DoorFrame(student, now, day)), |s.requests|;
            && DoorState(t, student, n + 1, now) && t.db == s.db
            && |t.requests| == r + 1 && t.requests[..r] == s.requests && DoorAsks(t, r, student, day, now)
  {
    DoorObserved(s, student, n, last, now, day);
  }

  // The request has written, and its commit is to come.
  lemma DoorWrites(s: State, r: nat, student: nat, day: string, now: int, count: nat)
    requires DoorAsks(s, r, student, day, now) && student in s.db.enrolled
    requires if count == 0 then (student, day) !in s.db.rows
             else (student, day) in s.db.rows && s.db.rows[(student, day)].count == count
    ensures var t := After(s, Decide(r));
            && t.requests == s.requests[r := s.requests[r].(committing := true)] && t.db.enrolled == s.db.enrolled
            && |t.log| == |s.log| + 1 && t.log[..|s.log|] == s.log && WroteOk(t.log, |s.log|, TrackId("door", 1))
            && (student, day) in t.db.rows && t.db.rows[(student, day)].count == count + 1
  {
  }

  lemma DoorCommits(s: State, r: nat)
    requires r < |s.requests| && s.requests[r].committing && s.requests[r].next == 0 && |s.requests[r].decisions| == 1
    ensures var t := After(s, Commit(r));
            && t.requests == s.requests[r := s.requests[r].(committing := false, next := 1)]
            && s.log <= t.log && t.db == s.db
  {
  }

  ghost predicate RecordedTwice(s: State, student: nat, day: string) {
    && (exists p: nat, q: nat ::
          p < q && WroteOk(s.log, p, TrackId("door", 1)) && WroteOk(s.log, q, TrackId("door", 1)))
    && (student, day) in s.db.rows && s.db.rows[(student, day)].count == 2
  }

  // Both requests have written.
  ghost predicate DoorWritten(s: State, student: nat, day: string) {
    && RecordedTwice(s, student, day) && |s.requests| == 4 && Through(s, 0) && Through(s, 1)
    && forall r :: r in {2, 3} ==>
         s.requests[r].committing && s.requests[r].next == 0 && |s.requests[r].decisions| == 1
  }

  lemma DoorBothWrite(s: State, student: nat, day: string)
    requires DoorOverlaps(s, student, day)
    ensures DoorWritten(After(After(s, Decide(2)), Decide(3)), student, day)
  {
    DoorWrites(s, 2, student, day, 200, 0);
    var t := After(s, Decide(2));
    DoorWrites(t, 3, student, day, 300, 1);
    var u := After(t, Decide(3));
    assert u.log[..|t.log|] == t.log;
    assert WroteOk(u.log, |s.log|, TrackId("door", 1)) && WroteOk(u.log, |s.log| + 1, TrackId("door", 1));
  }

  lemma DoorBothCommit(s: State, student: nat, day: string)
    requires DoorWritten(s, student, day)
    ensures var t := After(After(s, Commit(2)), Commit(3));
            RecordedTwice(t, student, day) && forall r :: 0 <= r < |t.requests| ==> Through(t, r)
  {
    assert 2 in {2, 3} && 3 in {2, 3};
    DoorCommits(s, 2);
    DoorCommits(After(s, Commit(2)), 3);
    var t := After(After(s, Commit(2)), Commit(3));
    var p: nat, q: nat :| p < q && WroteOk(s.log, p, TrackId("door", 1)) && WroteOk(s.log, q, TrackId("door", 1));
    assert s.log <= t.log && WroteOk(t.log, p, TrackId("door", 1)) && WroteOk(t.log, q, TrackId("door", 1));
  }

  lemma DoorRunBegins(student: nat, day: string, first: seq<Step>, second: seq<Step>)
    requires first == [Observe(DoorFrame(student, 0, day)), Decide(0)]
    requires second == [Observe(DoorFrame(student, 100, day)), Decide(1)]
    ensures DoorBegun(Run(Db(map[], {student}), first + second), student, 2, 100)
  {
    var db := Db(map[], {student});
    RunTwo(db, [], first[0], first[1]);
    assert [] + first == first && [first[0], first[1]] == first && [second[0], second[1]] == second;
    DoorSkips(Start(db), student, 0, 0, 0, day);
    RunTwo(db, first, second[0], second[1]);
    DoorSkips(Run(db, first), student, 1, 0, 100, day);
  }

  lemma DoorRunEnds(student: nat, day: string, before: seq<Step>)
    requires DoorBegun(Run(Db(map[], {student}), before), student, 2, 100)
    ensures var steps := before + [Observe(DoorFrame(student, 200, day)), Observe(DoorFrame(student, 300, day))];
            DoorOverlaps(Run(Db(map[], {student}), steps), student, day)
  {
    var db := Db(map[], {student});
    RunTwo(db, before, Observe(DoorFrame(student, 200, day)), Observe(DoorFrame(student, 300, day)));
    DoorTwoFrames(Run(db, before), student, day);
  }

  lemma DoorRunWrites(student: nat, day: string, before: seq<Step>)
    requires DoorOverlaps(Run(Db(map[], {student}), before), student, day)
    ensures var s := Run(Db(map[], {student}), before + [Decide(2), Decide(3)] + [Commit(2), Commit(3)]);
            RecordedTwice(s, student, day) && forall r :: 0 <= r < |s.requests| ==> Through(s, r)
  {
    var db := Db(map[], {student});
    RunTwo(db, before, Decide(2), Decide(3));
    DoorBothWrite(Run(db, before), student, day);
    RunTwo(db, before + [Decide(2), Decide(3)], Commit(2), Commit(3));
    DoorBothCommit(Run(db, before + [Decide(2), Decide(3)]), student, day);
  }

  lemma DistinctFramesJoin(a: seq<Step>, b: seq<Step>)
    requires DistinctFrames(a) && DistinctFrames(b)
    ensures DistinctFrames(a + b)
  {
  }

  lemma DoorDistinct(student: nat, day: string)
    ensures var steps :=
              [Observe(DoorFrame(student, 0, day)), Decide(0)] + [Observe(DoorFrame(student, 100, day)), Decide(1)]
              + [Observe(DoorFrame(student, 200, day)), Observe(DoorFrame(student, 300, day))]
              + [Decide(2), Decide(3)] + [Commit(2), Commit(3)];
            DistinctFrames(steps)
  {
    var first := [Observe(DoorFrame(student, 0, day)), Decide(0)];
    var second := [Observe(DoorFrame(student, 100, day)), Decide(1)];
    var third := [Observe(DoorFrame(student, 200, day)), Observe(DoorFrame(student, 300, day))];
    DistinctFramesJoin(first, second);
    DistinctFramesJoin(first + second, third);
    DistinctFramesJoin(first + second + third, [Decide(2), Decide(3)]);
    DistinctFramesJoin(first + second + third + [Decide(2), Decide(3)], [Commit(2), Commit(3)]);
  }

  // Three frames make the track live, and a fourth is observed before the third
  // request has written: both record attendance, and the day counts two recognitions.
  lemma OverlapHappens(student: nat, day: string)
    ensures var steps :=
              [Observe(DoorFrame(student, 0, day)), Decide(0)] + [Observe(DoorFrame(student, 100, day)), Decide(1)]
              + [Observe(DoorFrame(student, 200, day)), Observe(DoorFrame(student, 300, day))]
              + [Decide(2), Decide(3)] + [Commit(2), Commit(3)];
            var s := Run(Db(map[], {student}), steps);
            && DistinctFrames(steps) && RecordedTwice(s, student, day)
            && forall r :: 0 <= r < |s.requests| ==> Through(s, r)
  {
    var first := [Observe(DoorFrame(student, 0, day)), Decide(0)];
    var second := [Observe(DoorFrame(student, 100, day)), Decide(1)];
    DoorDistinct(student, day);
    DoorRunBegins(student, day, first, second);
    DoorRunEnds(student, day, first + second);
    DoorRunWrites(student, day, first + second + [Observe(DoorFrame(student, 200, day)),
                                                  Observe(DoorFrame(student, 300, day))]);
  }
}
