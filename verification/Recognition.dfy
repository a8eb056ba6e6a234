// One recognised frame after another (recognizePreparedImage in
// internal/web/recognition.go): greedy face-to-student selection, liveness
// decisions, attendance writes and tallies, over whole runs.
module Recognition {
  import opened Prelude
  import opened TrackNames
  import opened Liveness
  import opened Attendance
  import opened Greedy

  // ---- The run: sessions, attendance rows, and every attempt to write one ----

  datatype Attempt = Attempt(trackId: string, call: Call, ok: bool)

  datatype World = World(sessions: map<string, LiveSession>, rows: Table, attempts: seq<Attempt>)

  datatype Tally = Tally(verified: nat, pending: nat, timedOut: nat, spoof: nat)

  // A frame: the students seen, the time and day, and the attendance statement
  // that fails for the i-th decision.
  datatype Frame = Frame(sessionId: string, observations: seq<Observation>, now: int, day: string, faults: seq<Fault>)
  {
    function FaultAt(i: nat): Fault {
      if i < |faults| then faults[i] else NoFault
    }
  }

  function CommitIn(sessions: map<string, LiveSession>, sessionId: string, trackId: string): map<string, LiveSession> {
    if sessionId in sessions then sessions[sessionId := CommitSession(sessions[sessionId], trackId)] else sessions
  }

  function CallFor(f: Frame, i: nat): Call
    requires i < |f.observations|
  {
    var o := f.observations[i];
    Call(o.student, f.day, o.similarity, f.now, f.FaultAt(i))
  }

  function Attend(w: World, enrolled: set<nat>, trackId: string, sessionId: string, c: Call): World {
    var ok := Succeeds(w.rows, enrolled, c.student, c.day, c.fault);
    World(if ok then CommitIn(w.sessions, sessionId, trackId) else w.sessions,
          TableAfter(w.rows, enrolled, c.student, c.day, c.similarity, c.now, c.fault),
          w.attempts + [Attempt(trackId, c, ok)])
  }

  // The state after the first n decisions; true once a failed write ended the frame.
  function AfterDecisions(w: World, enrolled: set<nat>, f: Frame, ds: seq<Decision>, n: nat): (World, Tally, bool)
    requires n <= |ds| == |f.observations|
  {
    if n == 0 then (w, Tally(0, 0, 0, 0), false)
    else
      var (w1, t, stopped) := AfterDecisions(w, enrolled, f, ds, n - 1);
      var d := ds[n - 1];
      if stopped then (w1, t, true)
      else if d.rejected then (w1, t.(spoof := t.spoof + 1), false)
      else if d.verified then
        var t' := t.(verified := t.verified + 1);
        if d.needsAttendance then
          var w2 := Attend(w1, enrolled, d.trackId, f.sessionId, CallFor(f, n - 1));
          (w2, t', !w2.attempts[|w2.attempts| - 1].ok)
        else (w1, t', false)
      else if d.timedOut then (w1, t.(timedOut := t.timedOut + 1), false)
      else (w1, t.(pending := t.pending + 1), false)
  }

  function SessionOf(w: World, sessionId: string): LiveSession {
    var name := SessionKey(sessionId);
    if name in w.sessions then w.sessions[name] else LiveSession(map[], 0)
  }

  // The frame after the tracker has seen it, and its decisions.
  function Observed(w: World, f: Frame): (r: (World, seq<Decision>))
    ensures |r.1| == |f.observations|
  {
    var (s, ds) := ObserveSession(SessionKey(f.sessionId), SessionOf(w, f.sessionId), f.observations, f.now);
    (w.(sessions := w.sessions[SessionKey(f.sessionId) := s]), ds)
  }

  function RunFrame(w: World, enrolled: set<nat>, f: Frame): (World, Tally, bool) {
    var (w1, ds) := Observed(w, f);
    AfterDecisions(w1, enrolled, f, ds, |ds|)
  }

  function RunFrames(enrolled: set<nat>, frames: seq<Frame>): World {
    if frames == [] then World(map[], map[], [])
    else RunFrame(RunFrames(enrolled, frames[..|frames| - 1]), enrolled, frames[|frames| - 1]).0
  }

  ghost predicate DistinctStudents(os: seq<Observation>) {
    forall i, j :: 0 <= i < j < |os| ==> os[i].student != os[j].student
  }

  // Frames as the selection produces them: no student twice, a session name.
  ghost predicate ProperFrame(f: Frame) {
    f.sessionId != "" && DistinctStudents(f.observations)
  }

  // ---- The run invariant ----

  type Histories = map<string, map<nat, Past>>

  ghost predicate SessionsValid(sessions: map<string, LiveSession>, past: Histories) {
    && sessions.Keys == past.Keys
    && forall name :: name in sessions ==> ValidSession(name, sessions[name], past[name])
  }

  // The id was given to some track, now live or gone.
  ghost predicate Issued(sessions: map<string, LiveSession>, id: string) {
    exists name, n :: name in sessions && 1 <= n <= sessions[name].nextId && id == TrackId(name, n)
  }

  ghost predicate Settled(sessions: map<string, LiveSession>, id: string) {
    && Issued(sessions, id)
    && forall name, k :: name in sessions && k in sessions[name].tracks && sessions[name].tracks[k].id == id ==>
         sessions[name].tracks[k].committed
  }

  function Marks(attempts: seq<Attempt>): seq<Event> {
    seq(|attempts|, i requires 0 <= i < |attempts| => Mark(attempts[i].call))
  }

  // The database as the attempts have made it, from an empty table.
  function DbAfter(enrolled: set<nat>, attempts: seq<Attempt>): Db {
    RunEvents(Db(map[], enrolled), Marks(attempts))
  }

  ghost predicate AllSettled(sessions: map<string, LiveSession>, attempts: seq<Attempt>) {
    forall i :: 0 <= i < |attempts| && attempts[i].ok ==> Settled(sessions, attempts[i].trackId)
  }

  ghost predicate OncePerTrack(attempts: seq<Attempt>) {
    forall i, j :: 0 <= i < j < |attempts| && attempts[i].ok && attempts[j].ok ==>
        attempts[i].trackId != attempts[j].trackId
  }

  // What an attempt reported is what its call does to the database it found.
  ghost predicate OkMeans(enrolled: set<nat>, attempts: seq<Attempt>, i: nat)
    requires i < |attempts|
  {
    attempts[i].ok <==> CallSucceeds(DbAfter(enrolled, attempts[..i]), attempts[i].call)
  }

  ghost predicate Accounted(enrolled: set<nat>, rows: Table, attempts: seq<Attempt>) {
    && DbAfter(enrolled, attempts) == Db(rows, enrolled)
    && forall i :: 0 <= i < |attempts| ==> OkMeans(enrolled, attempts, i)
  }

  // A track id with a successful attempt is settled, and has only the one; the
  // table is what the attempts made of it, and they told their callers so.
  ghost predicate RunValid(w: World, enrolled: set<nat>) {
    && AllSettled(w.sessions, w.attempts)
    && OncePerTrack(w.attempts)
    && Accounted(enrolled, w.rows, w.attempts)
  }

  // ---- Observing keeps it ----

  // A track of the session afterwards is an old one, committed if it was, or is
  // not committed and has a number never used before.
  ghost predicate OldOrNew(name: string, s: LiveSession, s': LiveSession, k: nat)
    requires k in s'.tracks
  {
    || (k in s.tracks && s'.tracks[k].id == s.tracks[k].id && s'.tracks[k].committed == s.tracks[k].committed)
    || (!s'.tracks[k].committed && exists n :: s.nextId < n <= s'.nextId && s'.tracks[k].id == TrackId(name, n))
  }

  lemma ObserveOneOldOrNew(name: string, s: LiveSession, s1: LiveSession, o: Observation, now: int, k: nat)
    requires s.nextId <= s1.nextId && forall j :: j in s1.tracks ==> OldOrNew(name, s, s1, j)
    ensures var s2 := ObserveOne(name, s1, o, now).0;
            s.nextId <= s2.nextId && (k in s2.tracks ==> OldOrNew(name, s, s2, k))
  {
    var (t, timedOut) := StepTrack(TrackFor(name, s1, o.student, now), o, now);
    var s2 := ObserveOne(name, s1, o, now).0;
    assert t.id == TrackFor(name, s1, o.student, now).id;
    if k in s1.tracks {
      assert OldOrNew(name, s, s1, k);
    } else if k in s2.tracks {
      assert s2.tracks[k].id == TrackId(name, s2.nextId);
    }
  }

  lemma {:induction false} ObserveAllOldOrNew(name: string, s: LiveSession, os: seq<Observation>, now: int)
    ensures var s' := ObserveAll(name, s, os, now).0;
            s.nextId <= s'.nextId && forall k :: k in s'.tracks ==> OldOrNew(name, s, s', k)
  {
    if os != [] {
      var before, last := os[..|os| - 1], os[|os| - 1];
      ObserveAllOldOrNew(name, s, before, now);
      var s1 := ObserveAll(name, s, before, now).0;
      assert ObserveAll(name, s, os, now).0 == ObserveOne(name, s1, last, now).0;
      forall k {
        ObserveOneOldOrNew(name, s, s1, last, now, k);
      }
    }
  }

  lemma ObserveKeepsSettled(w: World, f: Frame, id: string)
    requires Settled(w.sessions, id)
    ensures Settled(Observed(w, f).0.sessions, id)
  {
    var name := SessionKey(f.sessionId);
    var s := SessionOf(w, f.sessionId);
    var sessions := Observed(w, f).0.sessions;
    ObserveAllOldOrNew(name, s.(tracks := Unexpired(s.tracks, f.now)), f.observations, f.now);
    var owner, n :| owner in w.sessions && 1 <= n <= w.sessions[owner].nextId && id == TrackId(owner, n);
    assert owner in sessions && n <= sessions[owner].nextId;
    forall other, k | other in sessions && k in sessions[other].tracks && sessions[other].tracks[k].id == id
      ensures sessions[other].tracks[k].committed
    {
      if other == name {
        assert OldOrNew(name, s.(tracks := Unexpired(s.tracks, f.now)), sessions[name], k);
        forall m | s.nextId < m
          ensures TrackId(name, m) != id
        {
          if TrackId(name, m) == id {
            TrackIdInjective(name, m, owner, n);
          }
        }
      }
    }
  }

  // ---- Decisions speak of the live track of their student ----

  ghost predicate DecisionLive(s: LiveSession, d: Decision, student: nat) {
    d.verified ==>
      && student in s.tracks && s.tracks[student].id == d.trackId && s.tracks[student].verified
      && (d.needsAttendance <==> !s.tracks[student].committed)
  }

  lemma {:induction false} ObserveAllDecisions(name: string, s: LiveSession, os: seq<Observation>, now: int)
    requires DistinctStudents(os)
    ensures var (s', ds) := ObserveAll(name, s, os, now);
            forall i :: 0 <= i < |os| ==> DecisionLive(s', ds[i], os[i].student)
  {
    if os != [] {
      var before, last := os[..|os| - 1], os[|os| - 1];
      ObserveAllDecisions(name, s, before, now);
      var (s1, ds1) := ObserveAll(name, s, before, now);
      var (s', ds) := ObserveAll(name, s, os, now);
      forall i | 0 <= i < |os|
        ensures DecisionLive(s', ds[i], os[i].student)
      {
        if i < |before| {
          assert ds[i] == ds1[i] && DecisionLive(s1, ds1[i], before[i].student);
          assert os[i].student != last.student;
        } else {
          LastDecision(name, s1, last, now);
        }
      }
    }
  }

  lemma LastDecision(name: string, s: LiveSession, o: Observation, now: int)
    ensures var (s', d) := ObserveOne(name, s, o, now); DecisionLive(s', d, o.student)
  {
  }

  // ---- An attempt keeps the invariant ----

  lemma CommitKeepsSettled(sessions: map<string, LiveSession>, sessionId: string, trackId: string, id: string)
    requires Settled(sessions, id)
    ensures Settled(CommitIn(sessions, sessionId, trackId), id)
  {
    var sessions' := CommitIn(sessions, sessionId, trackId);
    var owner, n :| owner in sessions && 1 <= n <= sessions[owner].nextId && id == TrackId(owner, n);
    assert owner in sessions' && n <= sessions'[owner].nextId;
  }

  lemma CommitSettles(sessions: map<string, LiveSession>, past: Histories, sessionId: string, k: nat)
    requires SessionsValid(sessions, past) && sessionId in sessions && k in sessions[sessionId].tracks
    ensures Settled(CommitIn(sessions, sessionId, sessions[sessionId].tracks[k].id), sessions[sessionId].tracks[k].id)
  {
    var id, n := sessions[sessionId].tracks[k].id, past[sessionId][k].number;
    var sessions' := CommitIn(sessions, sessionId, id);
    assert ValidEntry(sessionId, sessions[sessionId].tracks[k], k, past[sessionId][k], sessions[sessionId].nextId);
    assert sessionId in sessions' && n <= sessions'[sessionId].nextId && id == TrackId(sessionId, n);
    forall other, j | other in sessions' && j in sessions'[other].tracks && sessions'[other].tracks[j].id == id
      ensures sessions'[other].tracks[j].committed
    {
      assert ValidEntry(other, sessions[other].tracks[j], j, past[other][j], sessions[other].nextId);
      TrackIdInjective(other, past[other][j].number, sessionId, n);
    }
  }

  lemma CommitKeepsSessionsValid(sessions: map<string, LiveSession>, past: Histories, sessionId: string, id: string)
    requires SessionsValid(sessions, past)
    ensures SessionsValid(CommitIn(sessions, sessionId, id), past)
  {
    if sessionId in sessions {
      CommitValid(sessionId, sessions[sessionId], past[sessionId], id);
    }
  }

  lemma AttendKeepsAccounted(w: World, enrolled: set<nat>, id: string, sessionId: string, c: Call)
    requires Accounted(enrolled, w.rows, w.attempts)
    ensures var w' := Attend(w, enrolled, id, sessionId, c);
            Accounted(enrolled, w'.rows, w'.attempts)
  {
    var attempts' := Attend(w, enrolled, id, sessionId, c).attempts;
    assert attempts'[..|w.attempts|] == w.attempts;
    assert Marks(attempts')[..|w.attempts|] == Marks(w.attempts);
    forall i | 0 <= i < |attempts'|
      ensures OkMeans(enrolled, attempts', i)
    {
      if i < |w.attempts| {
        assert attempts'[..i] == w.attempts[..i] && OkMeans(enrolled, w.attempts, i);
      }
    }
  }

  // An id with a successful attempt is not the id of an uncommitted live track.
  lemma UncommittedIsNew(sessions: map<string, LiveSession>, sessionId: string, k: nat, id: string)
    requires Settled(sessions, id)
    requires sessionId in sessions && k in sessions[sessionId].tracks && !sessions[sessionId].tracks[k].committed
    ensures sessions[sessionId].tracks[k].id != id
  {
  }

  lemma AttendKeepsSettled(w: World, enrolled: set<nat>, past: Histories, sessionId: string, k: nat, c: Call)
    requires SessionsValid(w.sessions, past) && AllSettled(w.sessions, w.attempts)
    requires sessionId in w.sessions && k in w.sessions[sessionId].tracks
    ensures var w' := Attend(w, enrolled, w.sessions[sessionId].tracks[k].id, sessionId, c);
            AllSettled(w'.sessions, w'.attempts)
  {
    var id := w.sessions[sessionId].tracks[k].id;
    var w' := Attend(w, enrolled, id, sessionId, c);
    forall i | 0 <= i < |w'.attempts| && w'.attempts[i].ok
      ensures Settled(w'.sessions, w'.attempts[i].trackId)
    {
      if i < |w.attempts| {
        assert Settled(w.sessions, w.attempts[i].trackId);
        CommitKeepsSettled(w.sessions, sessionId, id, w.attempts[i].trackId);
      } else {
        CommitSettles(w.sessions, past, sessionId, k);
      }
    }
  }

  lemma AttendOncePerTrack(w: World, enrolled: set<nat>, sessionId: string, k: nat, c: Call)
    requires AllSettled(w.sessions, w.attempts) && OncePerTrack(w.attempts)
    requires sessionId in w.sessions && k in w.sessions[sessionId].tracks
    requires !w.sessions[sessionId].tracks[k].committed
    ensures OncePerTrack(Attend(w, enrolled, w.sessions[sessionId].tracks[k].id, sessionId, c).attempts)
  {
    forall i | 0 <= i < |w.attempts| && w.attempts[i].ok
      ensures w.attempts[i].trackId != w.sessions[sessionId].tracks[k].id
    {
      UncommittedIsNew(w.sessions, sessionId, k, w.attempts[i].trackId);
    }
  }

  lemma AttendKeeps(w: World, enrolled: set<nat>, past: Histories, sessionId: string, k: nat, c: Call)
    requires SessionsValid(w.sessions, past) && RunValid(w, enrolled)
    requires sessionId in w.sessions && k in w.sessions[sessionId].tracks
    requires !w.sessions[sessionId].tracks[k].committed
    ensures var w' := Attend(w, enrolled, w.sessions[sessionId].tracks[k].id, sessionId, c);
            SessionsValid(w'.sessions, past) && RunValid(w', enrolled)
  {
    var id := w.sessions[sessionId].tracks[k].id;
    CommitKeepsSessionsValid(w.sessions, past, sessionId, id);
    AttendKeepsSettled(w, enrolled, past, sessionId, k, c);
    AttendOncePerTrack(w, enrolled, sessionId, k, c);
    AttendKeepsAccounted(w, enrolled, id, sessionId, c);
  }

  // ---- Frames keep it ----

  // In the middle of a frame: decisions from n on still speak of live tracks.
  ghost predicate MidFrame(w: World, enrolled: set<nat>, past: Histories, f: Frame, ds: seq<Decision>, n: nat) {
    && SessionsValid(w.sessions, past) && RunValid(w, enrolled)
    && n <= |ds| == |f.observations|
    && f.sessionId in w.sessions
    && forall i :: n <= i < |ds| ==> DecisionLive(w.sessions[f.sessionId], ds[i], f.observations[i].student)
  }

  lemma AttendMidFrame(w: World, enrolled: set<nat>, past: Histories, f: Frame, ds: seq<Decision>, n: nat)
    requires ProperFrame(f) && MidFrame(w, enrolled, past, f, ds, n) && n < |ds|
    requires ds[n].verified && ds[n].needsAttendance
    ensures MidFrame(Attend(w, enrolled, ds[n].trackId, f.sessionId, CallFor(f, n)), enrolled, past, f, ds, n + 1)
  {
    var k, s := f.observations[n].student, w.sessions[f.sessionId];
    assert DecisionLive(s, ds[n], k);
    AttendKeeps(w, enrolled, past, f.sessionId, k, CallFor(f, n));
    var w' := Attend(w, enrolled, ds[n].trackId, f.sessionId, CallFor(f, n));
    IdsDistinct(f.sessionId, s, past[f.sessionId]);
    forall i | n + 1 <= i < |ds|
      ensures DecisionLive(w'.sessions[f.sessionId], ds[i], f.observations[i].student)
    {
      assert DecisionLive(s, ds[i], f.observations[i].student) && f.observations[i].student != k;
    }
  }

  // What the n-th decision makes of the state.
  function AfterDecision(w: World, enrolled: set<nat>, f: Frame, ds: seq<Decision>, n: nat): World
    requires n < |ds| == |f.observations|
  {
    if !ds[n].rejected && ds[n].verified && ds[n].needsAttendance
    then Attend(w, enrolled, ds[n].trackId, f.sessionId, CallFor(f, n)) else w
  }

  lemma OneDecision(w: World, enrolled: set<nat>, past: Histories, f: Frame, ds: seq<Decision>, n: nat)
    requires ProperFrame(f) && MidFrame(w, enrolled, past, f, ds, n) && n < |ds|
    ensures MidFrame(AfterDecision(w, enrolled, f, ds, n), enrolled, past, f, ds, n + 1)
  {
    if !ds[n].rejected && ds[n].verified && ds[n].needsAttendance {
      AttendMidFrame(w, enrolled, past, f, ds, n);
    }
  }

  // Whatever every single decision keeps, all decisions of a frame keep, up to the
  // failed write that may end it.
  lemma {:induction false} DecisionsInduction(inv: (World, nat) -> bool, w: World, enrolled: set<nat>, f: Frame,
                                              ds: seq<Decision>, n: nat)
    requires n <= |ds| == |f.observations| && inv(w, 0)
    requires forall v: World, k: nat :: k < |ds| && inv(v, k) ==> inv(AfterDecision(v, enrolled, f, ds, k), k + 1)
    ensures exists m: nat :: inv(AfterDecisions(w, enrolled, f, ds, n).0, m)
                             && (AfterDecisions(w, enrolled, f, ds, n).2 || m == n)
  {
    var after := AfterDecisions(w, enrolled, f, ds, n);
    if n == 0 {
      assert inv(after.0, 0);
    } else {
      var before := AfterDecisions(w, enrolled, f, ds, n - 1);
      DecisionsInduction(inv, w, enrolled, f, ds, n - 1);
      NextDecision(w, enrolled, f, ds, n);
      var m: nat :| inv(before.0, m) && (before.2 || m == n - 1);
      assert inv(after.0, if before.2 then m else n);
    }
  }

  lemma NextDecision(w: World, enrolled: set<nat>, f: Frame, ds: seq<Decision>, n: nat)
    requires 0 < n <= |ds| == |f.observations|
    ensures var before, after := AfterDecisions(w, enrolled, f, ds, n - 1), AfterDecisions(w, enrolled, f, ds, n);
            if before.2 then after.2 && after.0 == before.0
            else after.0 == AfterDecision(before.0, enrolled, f, ds, n - 1)
  {
  }

  ghost function HistoriesAfter(w: World, past: Histories, f: Frame): Histories {
    var name := SessionKey(f.sessionId);
    var history := if name in past then past[name] else map[];
    past[name := PastSession(name, SessionOf(w, f.sessionId), history, f.observations, f.now)]
  }

  lemma ObservedKeeps(w: World, enrolled: set<nat>, past: Histories, f: Frame)
    requires ProperFrame(f) && SessionsValid(w.sessions, past) && RunValid(w, enrolled)
    ensures MidFrame(Observed(w, f).0, enrolled, HistoriesAfter(w, past, f), f, Observed(w, f).1, 0)
  {
    var name, s := f.sessionId, SessionOf(w, f.sessionId);
    var history := if name in past then past[name] else map[];
    ObserveSessionValid(name, s, history, f.observations, f.now);
    ObserveAllDecisions(name, s.(tracks := Unexpired(s.tracks, f.now)), f.observations, f.now);
    ObservedKeepsRun(w, enrolled, f);
  }

  lemma ObservedKeepsRun(w: World, enrolled: set<nat>, f: Frame)
    requires RunValid(w, enrolled)
    ensures RunValid(Observed(w, f).0, enrolled)
  {
    forall i | 0 <= i < |w.attempts| && w.attempts[i].ok
      ensures Settled(Observed(w, f).0.sessions, w.attempts[i].trackId)
    {
      ObserveKeepsSettled(w, f, w.attempts[i].trackId);
    }
  }

  lemma RunFrameKeeps(w: World, enrolled: set<nat>, past: Histories, f: Frame)
    requires ProperFrame(f) && SessionsValid(w.sessions, past) && RunValid(w, enrolled)
    ensures var w' := RunFrame(w, enrolled, f).0;
            SessionsValid(w'.sessions, HistoriesAfter(w, past, f)) && RunValid(w', enrolled)
  {
    ObservedKeeps(w, enrolled, past, f);
    var (w1, ds) := Observed(w, f);
    var histories := HistoriesAfter(w, past, f);
    forall v: World, k: nat | k < |ds| && MidFrame(v, enrolled, histories, f, ds, k)
      ensures MidFrame(AfterDecision(v, enrolled, f, ds, k), enrolled, histories, f, ds, k + 1)
    {
      OneDecision(v, enrolled, histories, f, ds, k);
    }
    DecisionsInduction((v: World, k: nat) => MidFrame(v, enrolled, histories, f, ds, k), w1, enrolled, f, ds, |ds|);
  }

  // A failed write ends the frame: later decisions change nothing.
  lemma {:induction false} StoppedStays(w: World, enrolled: set<nat>, f: Frame, ds: seq<Decision>, m: nat, n: nat)
    requires m <= n <= |ds| == |f.observations| && AfterDecisions(w, enrolled, f, ds, m).2
    ensures AfterDecisions(w, enrolled, f, ds, n) == AfterDecisions(w, enrolled, f, ds, m)
  {
    if m < n {
      StoppedStays(w, enrolled, f, ds, m, n - 1);
    }
  }

  // The histories along a run.
  ghost function HistoriesOf(enrolled: set<nat>, frames: seq<Frame>): Histories {
    if frames == [] then map[]
    else
      var before := frames[..|frames| - 1];
      HistoriesAfter(RunFrames(enrolled, before), HistoriesOf(enrolled, before), frames[|frames| - 1])
  }

  // Over any run of frames, attendance succeeds at most once per track id, and
  // the table is what the attempts made of it.
  lemma {:induction false} RunKeepsInvariant(enrolled: set<nat>, frames: seq<Frame>)
    requires forall f :: f in frames ==> ProperFrame(f)
    ensures var w := RunFrames(enrolled, frames);
            && SessionsValid(w.sessions, HistoriesOf(enrolled, frames))
            && RunValid(w, enrolled) && OncePerTrack(w.attempts)
  {
    if frames == [] {
      assert Marks([]) == [];
    } else {
      var before, f := frames[..|frames| - 1], frames[|frames| - 1];
      RunKeepsInvariant(enrolled, before);
      RunFrameKeeps(RunFrames(enrolled, before), enrolled, HistoriesOf(enrolled, before), f);
    }
  }

  // ---- Who gets attended ----

  lemma {:induction false} AttemptsFromDecisions(w: World, enrolled: set<nat>, f: Frame, ds: seq<Decision>, n: nat,
                                                 i: nat)
    requires n <= |ds| == |f.observations|
    ensures var w' := AfterDecisions(w, enrolled, f, ds, n).0;
            && w.attempts <= w'.attempts
            && (|w.attempts| <= i < |w'.attempts| ==>
                  exists j :: 0 <= j < n && ds[j].verified && ds[j].needsAttendance
                              && w'.attempts[i].trackId == ds[j].trackId && w'.attempts[i].call == CallFor(f, j))
  {
    if n > 0 {
      AttemptsFromDecisions(w, enrolled, f, ds, n - 1, i);
    }
  }

  // In any frame of any run, attendance is attempted only for a student whose
  // live track has the verdict Live on its complete history, and is not committed.
  lemma AttemptedOnlyWhenVerified(enrolled: set<nat>, frames: seq<Frame>, f: Frame, i: nat)
    requires ProperFrame(f) && forall g :: g in frames ==> ProperFrame(g)
    requires |RunFrames(enrolled, frames).attempts| <= i < |RunFrames(enrolled, frames + [f]).attempts|
    ensures var a := RunFrames(enrolled, frames + [f]).attempts[i];
            var past := HistoriesOf(enrolled, frames + [f]);
            var s := Observed(RunFrames(enrolled, frames), f).0.sessions[f.sessionId];
            && f.sessionId in past && a.call.student in s.tracks && a.call.student in past[f.sessionId]
            && s.tracks[a.call.student].id == a.trackId && !s.tracks[a.call.student].committed
            && VerdictOf(LiveScores(past[f.sessionId][a.call.student].seen)) == Live
  {
    var w, past := RunFrames(enrolled, frames), HistoriesOf(enrolled, frames);
    assert (frames + [f])[..|frames|] == frames;
    RunKeepsInvariant(enrolled, frames);
    ObservedKeeps(w, enrolled, past, f);
    var (w1, ds) := Observed(w, f);
    AttemptsFromDecisions(w1, enrolled, f, ds, |ds|, i);
    var w' := RunFrame(w, enrolled, f).0;
    var j :| 0 <= j < |ds| && ds[j].verified && ds[j].needsAttendance
             && w'.attempts[i].trackId == ds[j].trackId && w'.attempts[i].call == CallFor(f, j);
    assert DecisionLive(w1.sessions[f.sessionId], ds[j], f.observations[j].student);
    SessionRemembers(f.sessionId, w1.sessions[f.sessionId], HistoriesAfter(w, past, f)[f.sessionId]);
  }

  // The attempts for a key that reported success.
  function OkCalls(attempts: seq<Attempt>, key: (nat, string)): seq<Call> {
    if attempts == [] then []
    else
      var a := attempts[|attempts| - 1];
      OkCalls(attempts[..|attempts| - 1], key) + if a.ok && (a.call.student, a.call.day) == key then [a.call] else []
  }

  lemma {:induction false} OkCallsReported(enrolled: set<nat>, attempts: seq<Attempt>, key: (nat, string))
    requires forall i :: 0 <= i < |attempts| ==> OkMeans(enrolled, attempts, i)
    ensures OkCalls(attempts, key) == ReportedCalls(Db(map[], enrolled), Marks(attempts), key)
    ensures StartingRow(Db(map[], enrolled), Marks(attempts), key).None?
  {
    if attempts != [] {
      var before := attempts[..|attempts| - 1];
      forall i | 0 <= i < |before|
        ensures OkMeans(enrolled, before, i)
      {
        assert before[..i] == attempts[..i] && OkMeans(enrolled, attempts, i);
      }
      OkCallsReported(enrolled, before, key);
      assert Marks(attempts)[..|before|] == Marks(before) && OkMeans(enrolled, attempts, |before|);
    }
  }

  // Over any run, a day's row counts the attempts that stored something, the first
  // of them is the check-in, and those that reported success are as many exactly
  // if none of them failed late.
  lemma RunCounts(enrolled: set<nat>, frames: seq<Frame>, key: (nat, string))
    requires forall f :: f in frames ==> ProperFrame(f)
    ensures var w := RunFrames(enrolled, frames);
            var stored := StoredCalls(Db(map[], enrolled), Marks(w.attempts), key);
            && (key in w.rows <==> stored != [])
            && (key in w.rows ==> w.rows[key].count == |stored| && w.rows[key].checkedAt == stored[0].now)
            && OkCalls(w.attempts, key) == Timely(stored)
            && (|OkCalls(w.attempts, key)| == |stored| <==> forall c :: c in stored ==> !FailsLate(c))
  {
    RunKeepsInvariant(enrolled, frames);
    var w := RunFrames(enrolled, frames);
    CountsStoredCalls(Db(map[], enrolled), Marks(w.attempts), key);
    ReportedAreStored(Db(map[], enrolled), Marks(w.attempts), key);
    OkCallsReported(enrolled, w.attempts, key);
  }

  // Every decision is tallied once, unless a failed write ends the frame.
  lemma {:induction false} TalliesAddUp(w: World, enrolled: set<nat>, f: Frame, ds: seq<Decision>, n: nat)
    requires n <= |ds| == |f.observations|
    ensures var (w', t, stopped) := AfterDecisions(w, enrolled, f, ds, n);
            var total := t.verified + t.pending + t.timedOut + t.spoof;
            total <= n && (!stopped ==> total == n)
  {
    if n > 0 {
      TalliesAddUp(w, enrolled, f, ds, n - 1);
    }
  }

  // ---- The empty session id ----

  // Observe files the empty session id under "default", Commit does not: after a
  // success the track is marked exactly when the session id is not empty.
  lemma CommitReachesTrackIff(sessions: map<string, LiveSession>, past: Histories, sessionId: string, k: nat)
    requires SessionsValid(sessions, past) && "" !in sessions
    requires SessionKey(sessionId) in sessions && k in sessions[SessionKey(sessionId)].tracks
    requires !sessions[SessionKey(sessionId)].tracks[k].committed
    ensures var name := SessionKey(sessionId);
            var id := sessions[name].tracks[k].id;
            CommitIn(sessions, sessionId, id)[name].tracks[k].committed <==> sessionId != ""
  {
  }
}
