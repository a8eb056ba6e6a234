// Requests of the recognition handler side by side (recognizePreparedImage in
// internal/web/recognition.go): the tracker and the database take one call at a
// time, but between the Observe of a request, each of its attendance writes and
// each of its commits, other requests do the same. Students come and go meanwhile.
module Requests {
  import opened Prelude
  import opened TrackNames
  import opened Liveness
  import opened Attendance
  import opened Recognition

  // `next` is the decision to act on, `committing` says that its attendance has
  // been written and its track is still to be committed, `failed` that the write
  // failed and ended the request.
  datatype Request = Request(frame: Frame, decisions: seq<Decision>, next: nat, committing: bool, failed: bool)

  datatype Entry =
    | Opened(request: nat, decisions: seq<Decision>)
    | Wrote(request: nat, index: nat, id: string, call: Call, ok: bool)
    | Committed(request: nat, sessionId: string, id: string)
    | Enrolled(student: nat)
    | Removed(student: nat)

  datatype State = State(sessions: map<string, LiveSession>, db: Db, requests: seq<Request>, log: seq<Entry>)

  datatype Step =
    | Observe(frame: Frame)
    | Decide(request: nat)
    | Commit(request: nat)
    | Enrol(student: nat)
    | Remove(student: nat)

  // ---- Steps ----

  predicate Writes(d: Decision) {
    !d.rejected && d.verified && d.needsAttendance
  }

  predicate Ready(s: State, r: nat) {
    r < |s.requests| &&
    var q := s.requests[r];
    !q.committing && !q.failed && q.next < |q.decisions| == |q.frame.observations|
  }

  predicate MayCommit(s: State, r: nat) {
    r < |s.requests| && s.requests[r].committing && s.requests[r].next < |s.requests[r].decisions|
  }

  function WorldOf(s: State): World {
    World(s.sessions, s.db.rows, [])
  }

  function AfterObserve(s: State, f: Frame): State {
    var (w, ds) := Observed(WorldOf(s), f);
    s.(sessions := w.sessions, requests := s.requests + [Request(f, ds, 0, false, false)],
       log := s.log + [Opened(|s.requests|, ds)])
  }

  function AfterWrite(s: State, r: nat): State
    requires Ready(s, r)
  {
    var q := s.requests[r];
    var c := CallFor(q.frame, q.next);
    var ok := CallSucceeds(s.db, c);
    s.(db := AfterEvent(s.db, Mark(c)),
       requests := s.requests[r := if ok then q.(committing := true) else q.(failed := true)],
       log := s.log + [Wrote(r, q.next, q.decisions[q.next].trackId, c, ok)])
  }

  function AfterDecide(s: State, r: nat): State
    requires Ready(s, r)
  {
    var q := s.requests[r];
    if Writes(q.decisions[q.next]) then AfterWrite(s, r) else s.(requests := s.requests[r := q.(next := q.next + 1)])
  }

  function AfterCommit(s: State, r: nat): State
    requires MayCommit(s, r)
  {
    var q := s.requests[r];
    var id := q.decisions[q.next].trackId;
    s.(sessions := CommitIn(s.sessions, q.frame.sessionId, id),
       requests := s.requests[r := q.(committing := false, next := q.next + 1)],
       log := s.log + [Committed(r, q.frame.sessionId, id)])
  }

  // What an entry of the log did to the database.
  function EventsOf(e: Entry): seq<Event> {
    match e
    case Wrote(_, _, _, c, _) => [Mark(c)]
    case Enrolled(student) => [Event.Enrol(student)]
    case Removed(student) => [Event.Remove(student)]
    case _ => []
  }

  function AfterChange(s: State, e: Entry): State
    requires e.Enrolled? || e.Removed?
  {
    s.(db := AfterEvent(s.db, EventsOf(e)[0]), log := s.log + [e])
  }

  function After(s: State, step: Step): State {
    match step
    case Observe(f) => AfterObserve(s, f)
    case Decide(r) => if Ready(s, r) then AfterDecide(s, r) else s
    case Commit(r) => if MayCommit(s, r) then AfterCommit(s, r) else s
    case Enrol(student) => AfterChange(s, Enrolled(student))
    case Remove(student) => AfterChange(s, Removed(student))
  }

  function Start(db: Db): State {
    State(map[], db, [], [])
  }

  function Run(db: Db, steps: seq<Step>): State {
    if steps == [] then Start(db) else After(Run(db, steps[..|steps| - 1]), steps[|steps| - 1])
  }

  // The frames of a run, as the selection produces them: no student twice.
  ghost predicate DistinctFrames(steps: seq<Step>) {
    forall step :: step in steps && step.Observe? ==> DistinctStudents(step.frame.observations)
  }

  // ---- A live track is committed exactly if a commit of its id has been made ----

  // A commit under the empty session id reaches no session.
  ghost predicate Done(log: seq<Entry>, id: string) {
    exists p: nat :: p < |log| && log[p].Committed? && log[p].sessionId != "" && log[p].id == id
  }

  ghost predicate IssuedIn(sessions: map<string, LiveSession>, name: string, id: string) {
    name in sessions && exists n: nat :: 1 <= n <= sessions[name].nextId && id == TrackId(name, n)
  }

  ghost predicate TrackAgrees(t: LiveTrack, log: seq<Entry>) {
    t.committed <==> Done(log, t.id)
  }

  ghost predicate CommitsAgree(sessions: map<string, LiveSession>, log: seq<Entry>) {
    && (forall name, k :: name in sessions && k in sessions[name].tracks ==> TrackAgrees(sessions[name].tracks[k], log))
    && (forall id: string :: Done(log, id) ==> Issued(sessions, id))
  }

  lemma DoneNext(log: seq<Entry>, e: Entry, id: string)
    ensures Done(log + [e], id) <==> Done(log, id) || (e.Committed? && e.sessionId != "" && e.id == id)
  {
    if Done(log, id) {
      var p: nat :| p < |log| && log[p].Committed? && log[p].sessionId != "" && log[p].id == id;
      assert (log + [e])[p] == log[p];
    }
    if e.Committed? && e.sessionId != "" && e.id == id {
      assert (log + [e])[|log|] == e;
    }
  }

  lemma OtherEntryAgrees(sessions: map<string, LiveSession>, log: seq<Entry>, e: Entry)
    requires CommitsAgree(sessions, log) && !e.Committed?
    ensures CommitsAgree(sessions, log + [e])
  {
    forall id: string
      ensures Done(log + [e], id) <==> Done(log, id)
    {
      DoneNext(log, e, id);
    }
  }

  // A track that is old keeps its mark, a new one has an id that was never issued.
  lemma OldOrNewAgrees(sessions: map<string, LiveSession>, log: seq<Entry>, name: string, s: LiveSession,
                       s': LiveSession, k: nat)
    requires CommitsAgree(sessions, log)
    requires if name in sessions then sessions[name].nextId == s.nextId && s.tracks.Items <= sessions[name].tracks.Items
             else s == LiveSession(map[], 0)
    requires k in s'.tracks && OldOrNew(name, s, s', k)
    ensures TrackAgrees(s'.tracks[k], log)
  {
    if k in s.tracks && s'.tracks[k].id == s.tracks[k].id && s'.tracks[k].committed == s.tracks[k].committed {
      assert (k, s.tracks[k]) in s.tracks.Items;
      assert TrackAgrees(sessions[name].tracks[k], log);
    } else {
      FreshIsNotDone(sessions, log, name, s.nextId, s'.tracks[k].id);
    }
  }

  lemma FreshIsNotDone(sessions: map<string, LiveSession>, log: seq<Entry>, name: string, used: nat, id: string)
    requires CommitsAgree(sessions, log) && (name in sessions ==> sessions[name].nextId == used)
    requires exists n: nat :: used < n && id == TrackId(name, n)
    ensures !Done(log, id)
  {
    if Done(log, id) {
      var n: nat :| used < n && id == TrackId(name, n);
      var owner, m :| owner in sessions && 1 <= m <= sessions[owner].nextId && id == TrackId(owner, m);
      TrackIdInjective(name, n, owner, m);
    }
  }

  lemma ObserveAgrees(w: World, f: Frame, log: seq<Entry>)
    requires CommitsAgree(w.sessions, log)
    ensures CommitsAgree(Observed(w, f).0.sessions, log)
  {
    var name, s := SessionKey(f.sessionId), SessionOf(w, f.sessionId);
    var kept, sessions := s.(tracks := Unexpired(s.tracks, f.now)), Observed(w, f).0.sessions;
    ObserveAllOldOrNew(name, kept, f.observations, f.now);
    forall other, k | other in sessions && k in sessions[other].tracks
      ensures TrackAgrees(sessions[other].tracks[k], log)
    {
      if other == name {
        OldOrNewAgrees(w.sessions, log, name, kept, sessions[name], k);
      }
    }
    forall id: string | Done(log, id)
      ensures Issued(sessions, id)
    {
      var owner, m :| owner in w.sessions && 1 <= m <= w.sessions[owner].nextId && id == TrackId(owner, m);
      assert owner in sessions && m <= sessions[owner].nextId;
    }
  }

  // Committing an id marks the live track that has it, if there still is one.
  lemma CommitAgrees(sessions: map<string, LiveSession>, past: Histories, log: seq<Entry>, r: nat, sessionId: string,
                     id: string)
    requires SessionsValid(sessions, past) && "" !in sessions && CommitsAgree(sessions, log)
    requires IssuedIn(sessions, SessionKey(sessionId), id)
    ensures CommitsAgree(CommitIn(sessions, sessionId, id), log + [Committed(r, sessionId, id)])
  {
    var sessions' := CommitIn(sessions, sessionId, id);
    var e := Committed(r, sessionId, id);
    forall name, k | name in sessions' && k in sessions'[name].tracks
      ensures TrackAgrees(sessions'[name].tracks[k], log + [e])
    {
      assert TrackAgrees(sessions[name].tracks[k], log);
      DoneNext(log, e, sessions[name].tracks[k].id);
      OnlyInItsSession(sessions, past, name, k, SessionKey(sessionId), id);
    }
    forall other: string | Done(log + [e], other)
      ensures Issued(sessions', other)
    {
      DoneNext(log, e, other);
      IssuedStays(sessions, sessionId, id, other);
    }
  }

  // A track with an id issued in a session lives in that session.
  lemma OnlyInItsSession(sessions: map<string, LiveSession>, past: Histories, name: string, k: nat, owner: string,
                         id: string)
    requires SessionsValid(sessions, past) && IssuedIn(sessions, owner, id)
    requires name in sessions && k in sessions[name].tracks
    ensures sessions[name].tracks[k].id == id ==> name == owner
  {
    var n: nat :| 1 <= n <= sessions[owner].nextId && id == TrackId(owner, n);
    assert ValidEntry(name, sessions[name].tracks[k], k, past[name][k], sessions[name].nextId);
    if sessions[name].tracks[k].id == id {
      TrackIdInjective(name, past[name][k].number, owner, n);
    }
  }

  lemma IssuedStays(sessions: map<string, LiveSession>, sessionId: string, id: string, other: string)
    requires Issued(sessions, other)
    ensures Issued(CommitIn(sessions, sessionId, id), other)
  {
    var sessions' := CommitIn(sessions, sessionId, id);
    var owner, m :| owner in sessions && 1 <= m <= sessions[owner].nextId && other == TrackId(owner, m);
    assert owner in sessions' && m <= sessions'[owner].nextId;
  }

  // ---- Requests and the log ----

  // Decision i of a request has been acted on, up to the commit.
  predicate Handled(q: Request, i: nat) {
    i < q.next || (i == q.next && (q.committing || q.failed))
  }

  ghost predicate DistinctIds(ds: seq<Decision>) {
    forall i, j :: 0 <= i < j < |ds| && ds[i].verified && ds[j].verified ==> ds[i].trackId != ds[j].trackId
  }

  ghost predicate AllIssued(sessions: map<string, LiveSession>, name: string, ds: seq<Decision>) {
    forall i :: 0 <= i < |ds| && ds[i].verified ==> IssuedIn(sessions, name, ds[i].trackId)
  }

  ghost predicate RequestFits(sessions: map<string, LiveSession>, q: Request) {
    && q.next <= |q.decisions| == |q.frame.observations|
    && (q.committing || q.failed ==> q.next < |q.decisions| && Writes(q.decisions[q.next]))
    && !(q.committing && q.failed)
    && AllIssued(sessions, SessionKey(q.frame.sessionId), q.decisions)
    && DistinctIds(q.decisions)
  }

  ghost predicate OpenedBefore(log: seq<Entry>, p: nat, r: nat, ds: seq<Decision>)
    requires p <= |log|
  {
    exists k: nat :: k < p && log[k] == Opened(r, ds)
  }

  // A request asks for the attendance of a track exactly if no commit of it has
  // been made before.
  ghost predicate AsksRightly(earlier: seq<Entry>, d: Decision) {
    d.verified ==> (d.needsAttendance <==> !Done(earlier, d.trackId))
  }

  ghost predicate OpenedFits(log: seq<Entry>, p: nat)
    requires p < |log|
  {
    log[p].Opened? ==> forall d :: d in log[p].decisions ==> AsksRightly(log[..p], d)
  }

  // A write belongs to a decision that asked for it.
  ghost predicate WroteFits(requests: seq<Request>, log: seq<Entry>, p: nat)
    requires p < |log|
  {
    log[p].Wrote? ==>
      var e := log[p];
      && e.request < |requests|
      && var q := requests[e.request];
         && e.index < |q.decisions| == |q.frame.observations|
         && Writes(q.decisions[e.index]) && e.id == q.decisions[e.index].trackId
         && e.call == CallFor(q.frame, e.index)
         && Handled(q, e.index)
         && OpenedBefore(log, p, e.request, q.decisions)
  }

  ghost predicate WritesApart(log: seq<Entry>) {
    forall p, q :: 0 <= p < q < |log| && log[p].Wrote? && log[q].Wrote? && log[p].request == log[q].request ==>
      log[p].index < log[q].index
  }

  // A successful write is followed by its commit, unless that is still to come.
  ghost predicate WriteCommits(requests: seq<Request>, log: seq<Entry>, p: nat)
    requires p < |log|
  {
    log[p].Wrote? && log[p].ok && log[p].request < |requests| ==>
      var e, q := log[p], requests[log[p].request];
      (q.committing && q.next == e.index) || CommittedIn(log, e.request, q.frame.sessionId, e.id)
  }

  ghost predicate CommittedIn(log: seq<Entry>, r: nat, sessionId: string, id: string) {
    exists k: nat :: k < |log| && log[k] == Committed(r, sessionId, id)
  }

  // What all of the log did to the database.
  function Events(log: seq<Entry>): seq<Event> {
    if log == [] then [] else Events(log[..|log| - 1]) + EventsOf(log[|log| - 1])
  }

  // What a write reported is what its call does to the database it found.
  ghost predicate WriteTells(db: Db, log: seq<Entry>, p: nat)
    requires p < |log|
  {
    log[p].Wrote? ==> (log[p].ok <==> CallSucceeds(RunEvents(db, Events(log[..p])), log[p].call))
  }

  ghost predicate TracksFit(s: State, past: Histories) {
    SessionsValid(s.sessions, past) && "" !in s.sessions && CommitsAgree(s.sessions, s.log)
  }

  ghost predicate RequestsFit(s: State) {
    forall r :: 0 <= r < |s.requests| ==>
      RequestFits(s.sessions, s.requests[r]) && OpenedBefore(s.log, |s.log|, r, s.requests[r].decisions)
  }

  ghost predicate LogFits(s: State) {
    && (forall p :: 0 <= p < |s.log| ==> OpenedFits(s.log, p))
    && (forall p :: 0 <= p < |s.log| ==> WroteFits(s.requests, s.log, p))
    && (forall p :: 0 <= p < |s.log| ==> WriteCommits(s.requests, s.log, p))
    && WritesApart(s.log)
  }

  ghost predicate DbFits(db: Db, s: State) {
    && s.db == RunEvents(db, Events(s.log))
    && forall p :: 0 <= p < |s.log| ==> WriteTells(db, s.log, p)
  }

  // ---- Observing keeps it ----

  ghost function PastAfterStep(s: State, past: Histories, step: Step): Histories {
    if step.Observe? then HistoriesAfter(WorldOf(s), past, step.frame) else past
  }

  lemma ObserveKeepsTracks(s: State, past: Histories, f: Frame)
    requires TracksFit(s, past)
    ensures TracksFit(AfterObserve(s, f), HistoriesAfter(WorldOf(s), past, f))
  {
    var name := SessionKey(f.sessionId);
    var session, history := SessionOf(WorldOf(s), f.sessionId), if name in past then past[name] else map[];
    ObserveSessionValid(name, session, history, f.observations, f.now);
    ObserveAgrees(WorldOf(s), f, s.log);
    OtherEntryAgrees(AfterObserve(s, f).sessions, s.log, Opened(|s.requests|, Observed(WorldOf(s), f).1));
  }

  // The decisions of a frame have ids of their own, of live tracks, and ask for
  // the attendance of those whose commit has not been made.
  lemma ObservedDecisions(s: State, past: Histories, f: Frame)
    requires TracksFit(s, past) && DistinctStudents(f.observations)
    ensures var (w, ds) := Observed(WorldOf(s), f);
            && DistinctIds(ds) && AllIssued(w.sessions, SessionKey(f.sessionId), ds)
            && forall d :: d in ds ==> AsksRightly(s.log, d)
  {
    var name, session := SessionKey(f.sessionId), SessionOf(WorldOf(s), f.sessionId);
    var (w, ds) := Observed(WorldOf(s), f);
    var past' := HistoriesAfter(WorldOf(s), past, f);
    ObserveKeepsTracks(s, past, f);
    ObserveAgrees(WorldOf(s), f, s.log);
    ObserveAllDecisions(name, session.(tracks := Unexpired(session.tracks, f.now)), f.observations, f.now);
    IdsDistinct(name, w.sessions[name], past'[name]);
    forall i | 0 <= i < |ds| && ds[i].verified
      ensures IssuedIn(w.sessions, name, ds[i].trackId) && AsksRightly(s.log, ds[i])
    {
      DecisionAsksRightly(w.sessions, past', s.log, name, ds[i], f.observations[i].student);
    }
    forall i, j | 0 <= i < j < |ds| && ds[i].verified && ds[j].verified
      ensures ds[i].trackId != ds[j].trackId
    {
      assert DecisionLive(w.sessions[name], ds[i], f.observations[i].student);
      assert DecisionLive(w.sessions[name], ds[j], f.observations[j].student);
    }
  }

  lemma DecisionAsksRightly(sessions: map<string, LiveSession>, past: Histories, log: seq<Entry>, name: string,
                            d: Decision, k: nat)
    requires SessionsValid(sessions, past) && CommitsAgree(sessions, log) && name in sessions
    requires d.verified && DecisionLive(sessions[name], d, k)
    ensures IssuedIn(sessions, name, d.trackId) && AsksRightly(log, d)
  {
    assert ValidEntry(name, sessions[name].tracks[k], k, past[name][k], sessions[name].nextId);
    assert TrackAgrees(sessions[name].tracks[k], log);
  }

  // ---- Growing logs ----

  ghost predicate Grows(requests: seq<Request>, requests': seq<Request>) {
    && |requests| <= |requests'|
    && forall r :: 0 <= r < |requests| ==> Follows(requests[r], requests'[r])
  }

  ghost predicate Follows(q: Request, q': Request) {
    && q'.frame == q.frame && q'.decisions == q.decisions
    && forall i: nat :: Handled(q, i) ==> Handled(q', i)
  }

  lemma OldEntryFits(requests: seq<Request>, requests': seq<Request>, log: seq<Entry>, log': seq<Entry>, p: nat)
    requires Grows(requests, requests') && log <= log' && p < |log|
    requires OpenedFits(log, p) && WroteFits(requests, log, p)
    ensures OpenedFits(log', p) && WroteFits(requests', log', p)
  {
    assert log'[..p] == log[..p] && log'[p] == log[p];
    if log[p].Wrote? {
      var r := log[p].request;
      assert Follows(requests[r], requests'[r]);
      assert OpenedBefore(log', p, r, requests'[r].decisions);
    }
  }

  lemma OldRequestOpened(log: seq<Entry>, log': seq<Entry>, r: nat, ds: seq<Decision>)
    requires log <= log' && OpenedBefore(log, |log|, r, ds)
    ensures OpenedBefore(log', |log'|, r, ds)
  {
    var k: nat :| k < |log| && log[k] == Opened(r, ds);
    assert log'[k] == Opened(r, ds);
  }

  lemma OldWriteCommits(requests: seq<Request>, log: seq<Entry>, log': seq<Entry>, p: nat)
    requires log <= log' && p < |log| && WriteCommits(requests, log, p)
    ensures WriteCommits(requests, log', p)
  {
    assert log'[p] == log[p];
    if log[p].Wrote? && log[p].ok && log[p].request < |requests| {
      var q := requests[log[p].request];
      if CommittedIn(log, log[p].request, q.frame.sessionId, log[p].id) {
        var k: nat :| k < |log| && log[k] == Committed(log[p].request, q.frame.sessionId, log[p].id);
        assert log'[k] == log[k];
      }
    }
  }

  // The log after one more entry fits if the new entry does.
  lemma AppendKeepsLog(s: State, t: State, e: Entry)
    requires LogFits(s) && t.log == s.log + [e] && Grows(s.requests, t.requests)
    requires OpenedFits(t.log, |s.log|) && WroteFits(t.requests, t.log, |s.log|)
    requires forall p :: 0 <= p < |t.log| ==> WriteCommits(t.requests, t.log, p)
    requires forall p :: 0 <= p < |s.log| && s.log[p].Wrote? && e.Wrote? && s.log[p].request == e.request ==>
               s.log[p].index < e.index
    ensures LogFits(t)
  {
    forall p | 0 <= p < |t.log|
      ensures OpenedFits(t.log, p) && WroteFits(t.requests, t.log, p)
    {
      if p < |s.log| {
        OldEntryFits(s.requests, t.requests, s.log, t.log, p);
      }
    }
  }

  ghost predicate Extends(sessions: map<string, LiveSession>, sessions': map<string, LiveSession>) {
    forall name :: name in sessions ==> name in sessions' && sessions[name].nextId <= sessions'[name].nextId
  }

  lemma IssuedExtends(sessions: map<string, LiveSession>, sessions': map<string, LiveSession>, name: string, id: string)
    requires Extends(sessions, sessions') && IssuedIn(sessions, name, id)
    ensures IssuedIn(sessions', name, id)
  {
    var n: nat :| 1 <= n <= sessions[name].nextId && id == TrackId(name, n);
    assert n <= sessions'[name].nextId;
  }

  lemma RequestExtends(sessions: map<string, LiveSession>, sessions': map<string, LiveSession>, q: Request)
    requires Extends(sessions, sessions') && RequestFits(sessions, q)
    ensures RequestFits(sessions', q)
  {
    var name := SessionKey(q.frame.sessionId);
    forall i | 0 <= i < |q.decisions| && q.decisions[i].verified
      ensures IssuedIn(sessions', name, q.decisions[i].trackId)
    {
      IssuedExtends(sessions, sessions', name, q.decisions[i].trackId);
    }
  }

  lemma ObserveExtends(w: World, f: Frame)
    ensures Extends(w.sessions, Observed(w, f).0.sessions)
  {
    var name, s := SessionKey(f.sessionId), SessionOf(w, f.sessionId);
    ObserveAllOldOrNew(name, s.(tracks := Unexpired(s.tracks, f.now)), f.observations, f.now);
  }

  lemma ObserveKeepsRequests(s: State, past: Histories, f: Frame)
    requires TracksFit(s, past) && RequestsFit(s) && DistinctStudents(f.observations)
    ensures RequestsFit(AfterObserve(s, f))
  {
    var t, ds := AfterObserve(s, f), Observed(WorldOf(s), f).1;
    ObservedDecisions(s, past, f);
    ObserveExtends(WorldOf(s), f);
    forall r | 0 <= r < |t.requests|
      ensures RequestFits(t.sessions, t.requests[r]) && OpenedBefore(t.log, |t.log|, r, t.requests[r].decisions)
    {
      if r < |s.requests| {
        RequestExtends(s.sessions, t.sessions, s.requests[r]);
        OldRequestOpened(s.log, t.log, r, s.requests[r].decisions);
      } else {
        assert t.log[|s.log|] == Opened(r, ds);
      }
    }
  }

  lemma ObserveKeepsLog(s: State, past: Histories, f: Frame)
    requires TracksFit(s, past) && LogFits(s) && DistinctStudents(f.observations)
    ensures LogFits(AfterObserve(s, f))
  {
    var t, ds := AfterObserve(s, f), Observed(WorldOf(s), f).1;
    ObservedDecisions(s, past, f);
    assert t.log[..|s.log|] == s.log;
    forall p | 0 <= p < |t.log|
      ensures WriteCommits(t.requests, t.log, p)
    {
      if p < |s.log| {
        assert WroteFits(s.requests, s.log, p) && WriteCommits(s.requests, s.log, p);
        assert WriteCommits(t.requests, s.log, p);
        OldWriteCommits(t.requests, s.log, t.log, p);
      }
    }
    AppendKeepsLog(s, t, Opened(|s.requests|, ds));
  }

  // ---- Acting on a decision keeps it ----

  // Request r has moved on; no other request and no session changed.
  lemma ActedKeepsRequests(s: State, t: State, r: nat)
    requires RequestsFit(s) && r < |s.requests| && t.sessions == s.sessions && s.log <= t.log
    requires |t.requests| == |s.requests| && forall i :: 0 <= i < |s.requests| && i != r ==>
               t.requests[i] == s.requests[i]
    requires Follows(s.requests[r], t.requests[r]) && RequestFits(t.sessions, t.requests[r])
    ensures RequestsFit(t) && Grows(s.requests, t.requests)
  {
    forall i | 0 <= i < |t.requests|
      ensures OpenedBefore(t.log, |t.log|, i, t.requests[i].decisions)
    {
      assert RequestFits(s.sessions, s.requests[i]);
      OldRequestOpened(s.log, t.log, i, s.requests[i].decisions);
    }
  }

  // Writes of a request that is not committing have been committed.
  lemma SettledWrites(s: State, t: State, r: nat)
    requires LogFits(s) && r < |s.requests| && !s.requests[r].committing && s.log <= t.log
    requires |t.requests| == |s.requests| && Follows(s.requests[r], t.requests[r])
    requires forall i :: 0 <= i < |s.requests| && i != r ==> t.requests[i] == s.requests[i]
    ensures forall p :: 0 <= p < |s.log| ==> WriteCommits(t.requests, t.log, p)
  {
    forall p | 0 <= p < |s.log|
      ensures WriteCommits(t.requests, t.log, p)
    {
      assert WriteCommits(s.requests, s.log, p);
      assert WriteCommits(t.requests, s.log, p);
      OldWriteCommits(t.requests, s.log, t.log, p);
    }
  }

  lemma SkipKeeps(s: State, r: nat)
    requires RequestsFit(s) && LogFits(s) && Ready(s, r) && !Writes(s.requests[r].decisions[s.requests[r].next])
    ensures RequestsFit(AfterDecide(s, r)) && LogFits(AfterDecide(s, r))
  {
    var t := AfterDecide(s, r);
    assert RequestFits(s.sessions, s.requests[r]);
    ActedKeepsRequests(s, t, r);
    SettledWrites(s, t, r);
    forall p | 0 <= p < |s.log|
      ensures WroteFits(t.requests, t.log, p)
    {
      OldEntryFits(s.requests, t.requests, s.log, t.log, p);
    }
  }

  lemma WriteKeeps(s: State, r: nat)
    requires RequestsFit(s) && LogFits(s) && Ready(s, r) && Writes(s.requests[r].decisions[s.requests[r].next])
    ensures RequestsFit(AfterWrite(s, r)) && LogFits(AfterWrite(s, r))
  {
    var t, q := AfterWrite(s, r), s.requests[r];
    var e := t.log[|s.log|];
    assert RequestFits(s.sessions, q) && OpenedBefore(s.log, |s.log|, r, q.decisions);
    ActedKeepsRequests(s, t, r);
    SettledWrites(s, t, r);
    assert OpenedBefore(t.log, |s.log|, r, q.decisions);
    forall p | 0 <= p < |s.log| && s.log[p].Wrote? && s.log[p].request == r
      ensures s.log[p].index < e.index
    {
      assert WroteFits(s.requests, s.log, p);
    }
    AppendKeepsLog(s, t, e);
  }

  lemma CommitKeeps(s: State, past: Histories, r: nat)
    requires TracksFit(s, past) && RequestsFit(s) && LogFits(s) && MayCommit(s, r)
    ensures TracksFit(AfterCommit(s, r), past) && RequestsFit(AfterCommit(s, r)) && LogFits(AfterCommit(s, r))
  {
    var t, q := AfterCommit(s, r), s.requests[r];
    var id := q.decisions[q.next].trackId;
    var e := Committed(r, q.frame.sessionId, id);
    assert RequestFits(s.sessions, q);
    CommitAgrees(s.sessions, past, s.log, r, q.frame.sessionId, id);
    CommitKeepsSessionsValid(s.sessions, past, q.frame.sessionId, id);
    CommitKeepsRequests(s, r);
    forall p | 0 <= p < |t.log|
      ensures WriteCommits(t.requests, t.log, p)
    {
      if p < |s.log| {
        CommittedNow(s, r, p);
      }
    }
    AppendKeepsLog(s, t, e);
  }

  lemma CommitKeepsRequests(s: State, r: nat)
    requires RequestsFit(s) && MayCommit(s, r)
    ensures RequestsFit(AfterCommit(s, r)) && Grows(s.requests, AfterCommit(s, r).requests)
  {
    var t, q := AfterCommit(s, r), s.requests[r];
    assert RequestFits(s.sessions, q);
    forall i | 0 <= i < |t.requests|
      ensures RequestFits(t.sessions, t.requests[i]) && OpenedBefore(t.log, |t.log|, i, t.requests[i].decisions)
    {
      assert RequestFits(s.sessions, s.requests[i]);
      RequestExtends(s.sessions, t.sessions, s.requests[i]);
      OldRequestOpened(s.log, t.log, i, s.requests[i].decisions);
    }
  }

  // The write a commit belongs to is committed by it, the others stay as they are.
  lemma CommittedNow(s: State, r: nat, p: nat)
    requires LogFits(s) && MayCommit(s, r) && p < |s.log|
    ensures WriteCommits(AfterCommit(s, r).requests, AfterCommit(s, r).log, p)
  {
    var t := AfterCommit(s, r);
    assert WroteFits(s.requests, s.log, p) && WriteCommits(s.requests, s.log, p);
    OldWriteCommits(s.requests, s.log, t.log, p);
    assert t.log[|s.log|] == Committed(r, s.requests[r].frame.sessionId,
                                       s.requests[r].decisions[s.requests[r].next].trackId);
  }

  // ---- Every run keeps it ----

  lemma ChangeKeeps(s: State, past: Histories, e: Entry)
    requires TracksFit(s, past) && RequestsFit(s) && LogFits(s) && (e.Enrolled? || e.Removed?)
    ensures TracksFit(AfterChange(s, e), past) && RequestsFit(AfterChange(s, e)) && LogFits(AfterChange(s, e))
  {
    var t := AfterChange(s, e);
    OtherEntryAgrees(s.sessions, s.log, e);
    forall r | 0 <= r < |s.requests|
      ensures OpenedBefore(t.log, |t.log|, r, s.requests[r].decisions)
    {
      OldRequestOpened(s.log, t.log, r, s.requests[r].decisions);
    }
    forall p | 0 <= p < |t.log|
      ensures WriteCommits(t.requests, t.log, p)
    {
      if p < |s.log| {
        OldWriteCommits(s.requests, s.log, t.log, p);
      }
    }
    AppendKeepsLog(s, t, e);
  }

  lemma DecideKeeps(s: State, past: Histories, r: nat)
    requires TracksFit(s, past) && RequestsFit(s) && LogFits(s) && Ready(s, r)
    ensures TracksFit(AfterDecide(s, r), past) && RequestsFit(AfterDecide(s, r)) && LogFits(AfterDecide(s, r))
  {
    if Writes(s.requests[r].decisions[s.requests[r].next]) {
      WriteKeeps(s, r);
      OtherEntryAgrees(s.sessions, s.log, AfterWrite(s, r).log[|s.log|]);
    } else {
      SkipKeeps(s, r);
    }
  }

  lemma StepKeeps(s: State, past: Histories, step: Step)
    requires TracksFit(s, past) && RequestsFit(s) && LogFits(s)
    requires step.Observe? ==> DistinctStudents(step.frame.observations)
    ensures var t := After(s, step);
            TracksFit(t, PastAfterStep(s, past, step)) && RequestsFit(t) && LogFits(t)
  {
    match step
    case Observe(f) =>
      ObserveKeepsTracks(s, past, f);
      ObserveKeepsRequests(s, past, f);
      ObserveKeepsLog(s, past, f);
    case Decide(r) =>
      if Ready(s, r) {
        DecideKeeps(s, past, r);
      }
    case Commit(r) =>
      if MayCommit(s, r) {
        CommitKeeps(s, past, r);
      }
    case Enrol(student) => ChangeKeeps(s, past, Enrolled(student));
    case Remove(student) => ChangeKeeps(s, past, Removed(student));
  }

  ghost function PastOf(db: Db, steps: seq<Step>): Histories {
    if steps == [] then map[]
    else
      var before := steps[..|steps| - 1];
      PastAfterStep(Run(db, before), PastOf(db, before), steps[|steps| - 1])
  }

  lemma {:induction false} RunKeeps(db: Db, steps: seq<Step>)
    requires DistinctFrames(steps)
    ensures var s := Run(db, steps);
            TracksFit(s, PastOf(db, steps)) && RequestsFit(s) && LogFits(s)
  {
    if steps != [] {
      var before := steps[..|steps| - 1];
      RunKeeps(db, before);
      assert steps[|steps| - 1] in steps;
      StepKeeps(Run(db, before), PastOf(db, before), steps[|steps| - 1]);
    }
  }

  lemma EntryKeepsDb(db: Db, s: State, t: State, e: Entry)
    requires DbFits(db, s) && t.log == s.log + [e] && t.db == RunEvents(s.db, EventsOf(e))
    requires e.Wrote? ==> (e.ok <==> CallSucceeds(s.db, e.call))
    ensures DbFits(db, t)
  {
    EventsNext(s.log, e);
    RunEventsNext(db, Events(s.log), EventsOf(e));
    forall p | 0 <= p < |t.log|
      ensures WriteTells(db, t.log, p)
    {
      assert t.log[..p] == s.log[..p];
      assert p < |s.log| ==> WriteTells(db, s.log, p);
      assert s.log[..|s.log|] == s.log;
    }
  }

  lemma EventsNext(log: seq<Entry>, e: Entry)
    ensures Events(log + [e]) == Events(log) + EventsOf(e)
  {
    assert (log + [e])[..|log|] == log;
  }

  lemma RunEventsNext(db: Db, events: seq<Event>, more: seq<Event>)
    requires |more| <= 1
    ensures RunEvents(db, events + more) == RunEvents(RunEvents(db, events), more)
  {
    assert |more| == 1 ==> (events + more)[..|events|] == events;
    assert more == [] ==> events + more == events;
  }

  lemma StepKeepsDb(db: Db, s: State, step: Step)
    requires DbFits(db, s)
    ensures DbFits(db, After(s, step))
  {
    var t := After(s, step);
    if |t.log| > |s.log| {
      StepEntry(s, step);
      EntryKeepsDb(db, s, t, t.log[|s.log|]);
    }
  }

  // What a step adds to the log is what it does to the database.
  lemma StepEntry(s: State, step: Step)
    requires |After(s, step).log| > |s.log|
    ensures var t := After(s, step);
            && t.log == s.log + [t.log[|s.log|]] && t.db == RunEvents(s.db, EventsOf(t.log[|s.log|]))
            && (t.log[|s.log|].Wrote? ==> (t.log[|s.log|].ok <==> CallSucceeds(s.db, t.log[|s.log|].call)))
  {
    var events := EventsOf(After(s, step).log[|s.log|]);
    if events != [] {
      OneEvent(s.db, events[0]);
    }
  }

  lemma OneEvent(db: Db, e: Event)
    ensures RunEvents(db, [e]) == AfterEvent(db, e)
  {
    assert [e][..0] == [];
  }

  lemma {:induction false} RunKeepsDb(db: Db, steps: seq<Step>)
    ensures DbFits(db, Run(db, steps))
  {
    if steps != [] {
      RunKeepsDb(db, steps[..|steps| - 1]);
      StepKeepsDb(db, Run(db, steps[..|steps| - 1]), steps[|steps| - 1]);
    }
  }

  // ---- A track's successes ----

  ghost predicate WroteOk(log: seq<Entry>, p: nat, id: string) {
    p < |log| && log[p].Wrote? && log[p].ok && log[p].id == id
  }

  // Request r has recorded attendance for the track.
  ghost predicate Succeeded(log: seq<Entry>, r: nat, id: string) {
    exists p: nat :: WroteOk(log, p, id) && log[p].request == r
  }

  predicate Shows(ds: seq<Decision>, id: string) {
    exists d :: d in ds && d.verified && !d.rejected && d.trackId == id
  }

  ghost predicate ObservedAt(log: seq<Entry>, k: nat, r: nat, id: string)
    requires k < |log|
  {
    log[k].Opened? && log[k].request == r && Shows(log[k].decisions, id) && !Done(log[..k], id)
  }

  // Request r observed the verified track before the first commit of the track.
  ghost predicate ObservedEarly(log: seq<Entry>, r: nat, id: string) {
    exists k: nat :: k < |log| && ObservedAt(log, k, r, id)
  }

  lemma SuccessWasObserved(s: State, p: nat, id: string)
    requires LogFits(s) && WroteOk(s.log, p, id)
    ensures ObservedEarly(s.log[..p], s.log[p].request, id)
  {
    var e := s.log[p];
    assert WroteFits(s.requests, s.log, p);
    var q := s.requests[e.request];
    var k: nat :| k < p && s.log[k] == Opened(e.request, q.decisions);
    assert OpenedFits(s.log, k) && q.decisions[e.index] in q.decisions;
    assert AsksRightly(s.log[..k], q.decisions[e.index]);
    assert s.log[..p][k] == s.log[k] && s.log[..p][..k] == s.log[..k];
    assert ObservedAt(s.log[..p], k, e.request, id);
  }

  lemma OneSuccessPerRequest(s: State, p: nat, q: nat, id: string)
    requires RequestsFit(s) && LogFits(s) && p < q && WroteOk(s.log, p, id) && WroteOk(s.log, q, id)
    ensures s.log[p].request != s.log[q].request
  {
    assert WroteFits(s.requests, s.log, p) && WroteFits(s.requests, s.log, q);
    assert RequestFits(s.sessions, s.requests[s.log[q].request]);
  }

  // In any run, a request is asked for the attendance of a verified track exactly
  // if no commit of the track came before its Observe.
  lemma AskedIff(db: Db, steps: seq<Step>, f: Frame)
    requires DistinctFrames(steps) && DistinctStudents(f.observations)
    ensures var s := Run(db, steps);
            forall d :: d in Observed(WorldOf(s), f).1 && d.verified ==>
                (d.needsAttendance <==> !Done(s.log, d.trackId))
  {
    RunKeeps(db, steps);
    var s := Run(db, steps);
    ObservedDecisions(s, PastOf(db, steps), f);
    forall d | d in Observed(WorldOf(s), f).1 && d.verified
      ensures d.needsAttendance <==> !Done(s.log, d.trackId)
    {
      assert AsksRightly(s.log, d);
    }
  }

  // A track's successes are successful writes of requests that observed it before
  // its first commit, one each.
  lemma SuccessesObservedEarly(db: Db, steps: seq<Step>, id: string)
    requires DistinctFrames(steps)
    ensures var log := Run(db, steps).log;
            && (forall p: nat :: WroteOk(log, p, id) ==> ObservedEarly(log[..p], log[p].request, id))
            && (forall p: nat, q: nat :: p < q && WroteOk(log, p, id) && WroteOk(log, q, id) ==>
                  log[p].request != log[q].request)
  {
    RunKeeps(db, steps);
    var s := Run(db, steps);
    forall p: nat | WroteOk(s.log, p, id)
      ensures ObservedEarly(s.log[..p], s.log[p].request, id)
    {
      SuccessWasObserved(s, p, id);
    }
    forall p: nat, q: nat | p < q && WroteOk(s.log, p, id) && WroteOk(s.log, q, id)
      ensures s.log[p].request != s.log[q].request
    {
      OneSuccessPerRequest(s, p, q, id);
    }
  }

  lemma ObservedLater(log: seq<Entry>, log': seq<Entry>, r: nat, id: string)
    requires log <= log' && ObservedEarly(log, r, id)
    ensures ObservedEarly(log', r, id)
  {
    var k: nat :| k < |log| && ObservedAt(log, k, r, id);
    assert log'[..k] == log[..k] && log'[k] == log[k];
    assert ObservedAt(log', k, r, id);
  }

  // ---- What every request writes ----

  ghost predicate HasWrite(log: seq<Entry>, r: nat, i: nat) {
    exists p: nat :: p < |log| && log[p].Wrote? && log[p].request == r && log[p].index == i
  }

  // A decision that has been acted on and asked for attendance has its write.
  ghost predicate AllWritten(log: seq<Entry>, r: nat, q: Request) {
    forall i: nat :: i < |q.decisions| && Handled(q, i) && Writes(q.decisions[i]) ==> HasWrite(log, r, i)
  }

  // An opened request has the decisions it was opened with, and a write failed
  // exactly if it ended its request.
  ghost predicate EntryTells(requests: seq<Request>, log: seq<Entry>, p: nat)
    requires p < |log|
  {
    match log[p]
    case Opened(r, ds) => r < |requests| && requests[r].decisions == ds
    case Wrote(r, i, _, _, ok) => r < |requests| && (ok <==> !(requests[r].failed && requests[r].next == i))
    case _ => true
  }

  ghost predicate WritesTell(s: State) {
    && (forall r :: 0 <= r < |s.requests| ==> AllWritten(s.log, r, s.requests[r]))
    && (forall p :: 0 <= p < |s.log| ==> EntryTells(s.requests, s.log, p))
  }

  lemma WriteStays(log: seq<Entry>, log': seq<Entry>, r: nat, i: nat)
    requires log <= log' && HasWrite(log, r, i)
    ensures HasWrite(log', r, i)
  {
    var p: nat :| p < |log| && log[p].Wrote? && log[p].request == r && log[p].index == i;
    assert log'[p] == log[p];
  }

  // All requests but r are as before, and r has been acted on no further than by
  // the new entries of the log.
  lemma OthersTell(s: State, t: State, r: nat)
    requires WritesTell(s) && s.log <= t.log && |s.requests| <= |t.requests|
    requires forall i :: 0 <= i < |s.requests| && i != r ==> t.requests[i] == s.requests[i]
    ensures forall i :: 0 <= i < |s.requests| && i != r ==> AllWritten(t.log, i, t.requests[i])
    ensures forall p :: 0 <= p < |s.log| && !(s.log[p].Wrote? && s.log[p].request == r) && !s.log[p].Opened? ==>
              EntryTells(t.requests, t.log, p)
  {
    forall i | 0 <= i < |s.requests| && i != r
      ensures AllWritten(t.log, i, t.requests[i])
    {
      assert AllWritten(s.log, i, s.requests[i]);
      forall j: nat | j < |s.requests[i].decisions| && Handled(s.requests[i], j) && Writes(s.requests[i].decisions[j])
        ensures HasWrite(t.log, i, j)
      {
        WriteStays(s.log, t.log, i, j);
      }
    }
    forall p | 0 <= p < |s.log| && !(s.log[p].Wrote? && s.log[p].request == r) && !s.log[p].Opened?
      ensures EntryTells(t.requests, t.log, p)
    {
      assert EntryTells(s.requests, s.log, p) && t.log[p] == s.log[p];
    }
  }

  // Request r moves on by one decision that it has written or need not write, or
  // comes to its write.
  lemma ActedTells(s: State, t: State, r: nat)
    requires WritesTell(s) && LogFits(s) && r < |s.requests| && s.log <= t.log && !s.requests[r].failed
    requires |t.requests| == |s.requests|
    requires forall i :: 0 <= i < |s.requests| && i != r ==> t.requests[i] == s.requests[i]
    requires t.requests[r].decisions == s.requests[r].decisions
    requires var q, q' := s.requests[r], t.requests[r];
             forall i: nat :: i < |q.decisions| && Handled(q', i) && !Handled(q, i) && Writes(q.decisions[i]) ==>
               HasWrite(t.log, r, i)
    requires t.requests[r].failed ==> t.requests[r].next == s.requests[r].next && !s.requests[r].committing
    requires forall p :: |s.log| <= p < |t.log| ==> EntryTells(t.requests, t.log, p)
    ensures WritesTell(t)
  {
    OthersTell(s, t, r);
    assert AllWritten(s.log, r, s.requests[r]);
    forall i: nat | i < |t.requests[r].decisions| && Handled(t.requests[r], i) && Writes(t.requests[r].decisions[i])
      ensures HasWrite(t.log, r, i)
    {
      if Handled(s.requests[r], i) {
        WriteStays(s.log, t.log, r, i);
      }
    }
    forall p | 0 <= p < |s.log|
      ensures EntryTells(t.requests, t.log, p)
    {
      assert EntryTells(s.requests, s.log, p) && WroteFits(s.requests, s.log, p) && t.log[p] == s.log[p];
    }
  }

  lemma ObserveTells(s: State, f: Frame)
    requires WritesTell(s)
    ensures WritesTell(AfterObserve(s, f))
  {
    var t := AfterObserve(s, f);
    OthersTell(s, t, |s.requests|);
    forall p | 0 <= p < |t.log|
      ensures EntryTells(t.requests, t.log, p)
    {
      assert p < |s.log| ==> EntryTells(s.requests, s.log, p) && t.log[p] == s.log[p];
    }
  }

  lemma StepTells(s: State, step: Step)
    requires WritesTell(s) && RequestsFit(s) && LogFits(s)
    ensures WritesTell(After(s, step))
  {
    match step
    case Observe(f) => ObserveTells(s, f);
    case Decide(r) =>
      if Ready(s, r) {
        if Writes(s.requests[r].decisions[s.requests[r].next]) {
          assert HasWrite(AfterWrite(s, r).log, r, s.requests[r].next) by {
            assert AfterWrite(s, r).log[|s.log|].Wrote?;
          }
        }
        ActedTells(s, After(s, step), r);
      }
    case Commit(r) =>
      if MayCommit(s, r) {
        assert RequestFits(s.sessions, s.requests[r]);
        ActedTells(s, After(s, step), r);
      }
    case Enrol(student) => ChangeTells(s, Enrolled(student));
    case Remove(student) => ChangeTells(s, Removed(student));
  }

  lemma ChangeTells(s: State, e: Entry)
    requires WritesTell(s) && (e.Enrolled? || e.Removed?)
    ensures WritesTell(AfterChange(s, e))
  {
    var t := AfterChange(s, e);
    OthersTell(s, t, |s.requests|);
    forall p | 0 <= p < |t.log|
      ensures EntryTells(t.requests, t.log, p)
    {
      assert p < |s.log| ==> EntryTells(s.requests, s.log, p) && t.log[p] == s.log[p];
    }
  }

  lemma {:induction false} RunTells(db: Db, steps: seq<Step>)
    requires DistinctFrames(steps)
    ensures WritesTell(Run(db, steps))
  {
    if steps != [] {
      RunTells(db, steps[..|steps| - 1]);
      RunKeeps(db, steps[..|steps| - 1]);
      StepTells(Run(db, steps[..|steps| - 1]), steps[|steps| - 1]);
    }
  }

  // The request has acted on its decision about the track, and no write failed there.
  predicate Carried(q: Request, id: string) {
    exists i :: 0 <= i < |q.decisions| && q.decisions[i].verified && q.decisions[i].trackId == id
                && Handled(q, i) && !(q.failed && q.next == i)
  }

  lemma ObservedAsks(s: State, r: nat, id: string, i: nat)
    requires RequestsFit(s) && LogFits(s) && WritesTell(s) && r < |s.requests| && ObservedEarly(s.log, r, id)
    requires var ds := s.requests[r].decisions; i < |ds| && ds[i].verified && ds[i].trackId == id
    ensures Writes(s.requests[r].decisions[i])
  {
    var q := s.requests[r];
    var k: nat :| k < |s.log| && ObservedAt(s.log, k, r, id);
    assert EntryTells(s.requests, s.log, k) && OpenedFits(s.log, k) && RequestFits(s.sessions, q);
    var d :| d in q.decisions && d.verified && !d.rejected && d.trackId == id;
    assert d == q.decisions[i] && AsksRightly(s.log[..k], d);
  }

  lemma WriteIsOk(s: State, r: nat, i: nat)
    requires LogFits(s) && WritesTell(s) && r < |s.requests|
    requires var q := s.requests[r];
             i < |q.decisions| && Writes(q.decisions[i]) && Handled(q, i) && !(q.failed && q.next == i)
    ensures Succeeded(s.log, r, s.requests[r].decisions[i].trackId)
  {
    assert AllWritten(s.log, r, s.requests[r]);
    var p: nat :| p < |s.log| && s.log[p].Wrote? && s.log[p].request == r && s.log[p].index == i;
    assert EntryTells(s.requests, s.log, p) && WroteFits(s.requests, s.log, p);
    assert WroteOk(s.log, p, s.requests[r].decisions[i].trackId);
  }

  lemma CarriedWrote(s: State, r: nat, id: string)
    requires RequestsFit(s) && LogFits(s) && WritesTell(s) && r < |s.requests|
    requires ObservedEarly(s.log, r, id) && Carried(s.requests[r], id)
    ensures Succeeded(s.log, r, id)
  {
    var q := s.requests[r];
    var i :| 0 <= i < |q.decisions| && q.decisions[i].verified && q.decisions[i].trackId == id
             && Handled(q, i) && !(q.failed && q.next == i);
    ObservedAsks(s, r, id, i);
    WriteIsOk(s, r, i);
  }

  lemma WroteCarried(s: State, p: nat, id: string)
    requires LogFits(s) && WritesTell(s) && WroteOk(s.log, p, id)
    ensures var r := s.log[p].request;
            r < |s.requests| && ObservedEarly(s.log, r, id) && Carried(s.requests[r], id)
  {
    SuccessWasObserved(s, p, id);
    ObservedLater(s.log[..p], s.log, s.log[p].request, id);
    assert WroteFits(s.requests, s.log, p) && EntryTells(s.requests, s.log, p);
  }

  // In any run, a request records attendance for a track exactly if it observed the
  // verified track before the first commit and has carried out its decision.
  lemma SucceededIff(db: Db, steps: seq<Step>, r: nat, id: string)
    requires DistinctFrames(steps) && r < |Run(db, steps).requests|
    ensures var s := Run(db, steps);
            Succeeded(s.log, r, id) <==> ObservedEarly(s.log, r, id) && Carried(s.requests[r], id)
  {
    RunKeeps(db, steps);
    RunTells(db, steps);
    var s := Run(db, steps);
    if Succeeded(s.log, r, id) {
      var p: nat :| WroteOk(s.log, p, id) && s.log[p].request == r;
      WroteCarried(s, p, id);
    }
    if ObservedEarly(s.log, r, id) && Carried(s.requests[r], id) {
      CarriedWrote(s, r, id);
    }
  }

  // The request has run to its end; a failed write would have ended it before.
  predicate Through(s: State, r: nat) {
    r < |s.requests| && s.requests[r].next == |s.requests[r].decisions|
  }

  lemma ThroughSucceeds(s: State, r: nat, id: string)
    requires RequestsFit(s) && LogFits(s) && WritesTell(s) && Through(s, r) && ObservedEarly(s.log, r, id)
    ensures Succeeded(s.log, r, id)
  {
    var q := s.requests[r];
    var k: nat :| k < |s.log| && ObservedAt(s.log, k, r, id);
    assert EntryTells(s.requests, s.log, k) && RequestFits(s.sessions, q);
    var d :| d in q.decisions && d.verified && d.trackId == id;
    var i :| 0 <= i < |q.decisions| && q.decisions[i] == d;
    assert Carried(q, id);
    CarriedWrote(s, r, id);
  }

  // Once the requests that observed a track before its first commit have run to
  // their ends, its attendance has succeeded more than once exactly if there are
  // two of them.
  lemma TwiceIff(db: Db, steps: seq<Step>, id: string)
    requires DistinctFrames(steps)
    requires forall r: nat :: ObservedEarly(Run(db, steps).log, r, id) ==> Through(Run(db, steps), r)
    ensures var log := Run(db, steps).log;
            (exists p: nat, q: nat :: p < q && WroteOk(log, p, id) && WroteOk(log, q, id)) <==>
            (exists a: nat, b: nat :: a != b && ObservedEarly(log, a, id) && ObservedEarly(log, b, id))
  {
    RunKeeps(db, steps);
    RunTells(db, steps);
    var s := Run(db, steps);
    if p: nat, q: nat :| p < q && WroteOk(s.log, p, id) && WroteOk(s.log, q, id) {
      OneSuccessPerRequest(s, p, q, id);
      WroteCarried(s, p, id);
      WroteCarried(s, q, id);
    }
    if a: nat, b: nat :| a != b && ObservedEarly(s.log, a, id) && ObservedEarly(s.log, b, id) {
      ThroughSucceeds(s, a, id);
      ThroughSucceeds(s, b, id);
      TwoSuccesses(s.log, a, b, id);
    }
  }

  lemma TwoSuccesses(log: seq<Entry>, a: nat, b: nat, id: string)
    requires a != b && Succeeded(log, a, id) && Succeeded(log, b, id)
    ensures exists p: nat, q: nat :: p < q && WroteOk(log, p, id) && WroteOk(log, q, id)
  {
    var p: nat :| WroteOk(log, p, id) && log[p].request == a;
    var q: nat :| WroteOk(log, q, id) && log[q].request == b;
    assert p < q || q < p;
  }

  // ---- Overlapping requests of a session ----

  // A verified track stays as it is while a frame is observed, and every decision
  // about it asks for attendance exactly if it is not committed.
  ghost predicate SameTrack(t: LiveTrack, t': LiveTrack) {
    t'.id == t.id && t'.verified && t'.rejected == t.rejected && t'.committed == t.committed
  }

  ghost predicate DecidesOn(d: Decision, t: LiveTrack) {
    d.trackId == t.id && d.verified && d.rejected == t.rejected && d.needsAttendance == !t.committed
  }

  lemma VerifiedStaysOnce(name: string, s: LiveSession, o: Observation, now: int, student: nat)
    requires student in s.tracks && s.tracks[student].verified
    ensures var (s', d) := ObserveOne(name, s, o, now);
            && student in s'.tracks && SameTrack(s.tracks[student], s'.tracks[student])
            && s'.tracks[student].lastSeen == (if o.student == student then now else s.tracks[student].lastSeen)
            && (o.student == student ==> DecidesOn(d, s.tracks[student]))
  {
  }

  // After some observations: the track, and the decisions about its student.
  ghost predicate StaysVerified(t: LiveTrack, student: nat, now: int, os: seq<Observation>, s: LiveSession,
                                ds: seq<Decision>) {
    && student in s.tracks && SameTrack(t, s.tracks[student]) && |ds| == |os|
    && (s.tracks[student].lastSeen == now || forall i :: 0 <= i < |os| ==> os[i].student != student)
    && forall i :: 0 <= i < |os| && os[i].student == student ==> DecidesOn(ds[i], t)
  }

  lemma StaysVerifiedNext(t: LiveTrack, name: string, student: nat, now: int, os: seq<Observation>, s: LiveSession,
                          ds: seq<Decision>, o: Observation)
    requires StaysVerified(t, student, now, os, s, ds)
    ensures var (s', d) := ObserveOne(name, s, o, now); StaysVerified(t, student, now, os + [o], s', ds + [d])
  {
    VerifiedStaysOnce(name, s, o, now, student);
  }

  // Whatever every single observation keeps, all observations of a frame keep.
  lemma {:induction false} ObserveAllInduction(inv: (nat, LiveSession, seq<Decision>) -> bool, name: string,
                                               s: LiveSession, os: seq<Observation>, now: int, n: nat)
    requires n <= |os| && inv(0, s, [])
    requires forall i: nat, s1, ds :: i < |os| && inv(i, s1, ds) ==>
               inv(i + 1, ObserveOne(name, s1, os[i], now).0, ds + [ObserveOne(name, s1, os[i], now).1])
    ensures inv(n, ObserveAll(name, s, os[..n], now).0, ObserveAll(name, s, os[..n], now).1)
  {
    if n > 0 {
      ObserveAllInduction(inv, name, s, os, now, n - 1);
      ObserveAllNext(name, s, os, now, n - 1);
    }
  }

  lemma VerifiedStays(name: string, s: LiveSession, os: seq<Observation>, now: int, student: nat)
    requires student in s.tracks && s.tracks[student].verified
    ensures var (s', ds) := ObserveAll(name, s, os, now);
            StaysVerified(s.tracks[student], student, now, os, s', ds)
  {
    var t := s.tracks[student];
    forall i: nat, s1, ds | i < |os| && StaysVerified(t, student, now, os[..i], s1, ds)
      ensures StaysVerified(t, student, now, os[..i + 1], ObserveOne(name, s1, os[i], now).0,
                            ds + [ObserveOne(name, s1, os[i], now).1])
    {
      StaysVerifiedNext(t, name, student, now, os[..i], s1, ds, os[i]);
      assert os[..i] + [os[i]] == os[..i + 1];
    }
    ObserveAllInduction((i: nat, s1, ds) => i <= |os| && StaysVerified(t, student, now, os[..i], s1, ds),
                        name, s, os, now, |os|);
    assert os[..|os|] == os;
  }

  // A student's track with the id is live in the session at that time, verified
  // and not yet committed.
  ghost predicate Pending(s: State, name: string, student: nat, id: string, now: int) {
    && name in s.sessions && student in s.sessions[name].tracks
    && var t := s.sessions[name].tracks[student];
       t.id == id && t.verified && !t.rejected && !t.committed && now - t.lastSeen <= TRACK_TTL
  }

  // The step observes the student while the track is pending.
  ghost predicate ObservesPending(db: Db, steps: seq<Step>, i: nat, student: nat, id: string)
    requires i < |steps|
  {
    && steps[i].Observe?
    && var f := steps[i].frame;
       && Pending(Run(db, steps[..i]), SessionKey(f.sessionId), student, id, f.now)
       && exists o :: o in f.observations && o.student == student
  }

  lemma PendingIsShown(s: State, f: Frame, student: nat, id: string)
    requires Pending(s, SessionKey(f.sessionId), student, id, f.now)
    requires exists o :: o in f.observations && o.student == student
    ensures Shows(Observed(WorldOf(s), f).1, id)
  {
    var name := SessionKey(f.sessionId);
    var session := s.sessions[name];
    VerifiedStays(name, session.(tracks := Unexpired(session.tracks, f.now)), f.observations, f.now, student);
    var i :| 0 <= i < |f.observations| && f.observations[i].student == student;
    assert DecidesOn(Observed(WorldOf(s), f).1[i], session.tracks[student]);
  }

  lemma {:induction false} RunGrows(db: Db, steps: seq<Step>, i: nat)
    requires i <= |steps|
    ensures Run(db, steps[..i]).log <= Run(db, steps).log
    decreases |steps|
  {
    if i < |steps| {
      assert steps[..|steps| - 1][..i] == steps[..i];
      RunGrows(db, steps[..|steps| - 1], i);
    } else {
      assert steps[..i] == steps;
    }
  }

  lemma PendingIsObserved(db: Db, steps: seq<Step>, i: nat, student: nat, id: string)
    requires DistinctFrames(steps) && i < |steps| && ObservesPending(db, steps, i, student, id)
    ensures ObservedEarly(Run(db, steps).log, |Run(db, steps[..i]).requests|, id)
  {
    var s, f := Run(db, steps[..i]), steps[i].frame;
    RunKeeps(db, steps[..i]);
    PendingIsShown(s, f, student, id);
    assert TrackAgrees(s.sessions[SessionKey(f.sessionId)].tracks[student], s.log);
    ShownIsObserved(s, f, id);
    RunTo(db, steps, i);
    RunGrows(db, steps, i + 1);
    ObservedLater(AfterObserve(s, f).log, Run(db, steps).log, |s.requests|, id);
  }

  lemma ShownIsObserved(s: State, f: Frame, id: string)
    requires Shows(Observed(WorldOf(s), f).1, id) && !Done(s.log, id)
    ensures ObservedEarly(AfterObserve(s, f).log, |s.requests|, id)
  {
    var log := AfterObserve(s, f).log;
    assert log[..|s.log|] == s.log;
    assert ObservedAt(log, |s.log|, |s.requests|, id);
  }

  lemma RunTo(db: Db, steps: seq<Step>, i: nat)
    requires i < |steps|
    ensures Run(db, steps[..i + 1]) == After(Run(db, steps[..i]), steps[i])
  {
    assert steps[..i + 1][..i] == steps[..i];
  }

  // Two requests that observe a track while it is pending record its attendance
  // twice, if all requests run to their ends.
  lemma OverlapSucceedsTwice(db: Db, steps: seq<Step>, i: nat, j: nat, student: nat, id: string)
    requires DistinctFrames(steps) && i < j < |steps|
    requires ObservesPending(db, steps, i, student, id) && ObservesPending(db, steps, j, student, id)
    requires forall r :: 0 <= r < |Run(db, steps).requests| ==> Through(Run(db, steps), r)
    ensures var log := Run(db, steps).log;
            exists p: nat, q: nat :: p < q && WroteOk(log, p, id) && WroteOk(log, q, id)
  {
    PendingIsObserved(db, steps, i, student, id);
    PendingIsObserved(db, steps, j, student, id);
    EarlierRequest(db, steps, i, j, student, id);
    var a, b := |Run(db, steps[..i]).requests|, |Run(db, steps[..j]).requests|;
    ObservedIsRequest(db, steps, a, id);
    ObservedIsRequest(db, steps, b, id);
    BothSucceed(db, steps, a, b, id);
  }

  lemma ObservedIsRequest(db: Db, steps: seq<Step>, r: nat, id: string)
    requires DistinctFrames(steps) && ObservedEarly(Run(db, steps).log, r, id)
    ensures r < |Run(db, steps).requests|
  {
    RunTells(db, steps);
    var s := Run(db, steps);
    var k: nat :| k < |s.log| && ObservedAt(s.log, k, r, id);
    assert EntryTells(s.requests, s.log, k);
  }

  // A request observed at step i was there when step j opened another.
  lemma EarlierRequest(db: Db, steps: seq<Step>, i: nat, j: nat, student: nat, id: string)
    requires DistinctFrames(steps) && i < j < |steps| && ObservesPending(db, steps, i, student, id)
    ensures |Run(db, steps[..i]).requests| < |Run(db, steps[..j]).requests|
  {
    assert steps[..j][..i] == steps[..i];
    PendingIsObserved(db, steps[..j], i, student, id);
    ObservedIsRequest(db, steps[..j], |Run(db, steps[..i]).requests|, id);
  }

  lemma BothSucceed(db: Db, steps: seq<Step>, a: nat, b: nat, id: string)
    requires DistinctFrames(steps) && a != b && Through(Run(db, steps), a) && Through(Run(db, steps), b)
    requires ObservedEarly(Run(db, steps).log, a, id) && ObservedEarly(Run(db, steps).log, b, id)
    ensures var log := Run(db, steps).log;
            exists p: nat, q: nat :: p < q && WroteOk(log, p, id) && WroteOk(log, q, id)
  {
    var s := Run(db, steps);
    RunKeeps(db, steps);
    RunTells(db, steps);
    ThroughSucceeds(s, a, id);
    ThroughSucceeds(s, b, id);
    TwoSuccesses(s.log, a, b, id);
  }

  // ---- Requests of a session one after the other ----

  predicate Open(q: Request) {
    !q.failed && q.next < |q.decisions|
  }

  ghost predicate Idle(s: State, name: string) {
    forall r :: 0 <= r < |s.requests| && SessionKey(s.requests[r].frame.sessionId) == name ==> !Open(s.requests[r])
  }

  // A frame of a session is observed only when no request of the session is open;
  // requests of different sessions overlap as they like.
  ghost predicate Serial(db: Db, steps: seq<Step>) {
    forall i :: 0 <= i < |steps| && steps[i].Observe? ==>
      steps[i].frame.sessionId != "" && Idle(Run(db, steps[..i]), steps[i].frame.sessionId)
  }

  ghost predicate Once(log: seq<Entry>) {
    forall p: nat, q: nat, id: string :: p < q && WroteOk(log, p, id) ==> !WroteOk(log, q, id)
  }

  // What an open request still has to write has not been written.
  ghost predicate Unwritten(log: seq<Entry>, q: Request) {
    Open(q) ==> forall j: nat, p: nat :: j < |q.decisions| && !Handled(q, j) && Writes(q.decisions[j]) ==>
                  !WroteOk(log, p, q.decisions[j].trackId)
  }

  ghost predicate OneOpen(requests: seq<Request>) {
    forall a, b :: 0 <= a < b < |requests| && Open(requests[a]) && Open(requests[b]) ==>
      SessionKey(requests[a].frame.sessionId) != SessionKey(requests[b].frame.sessionId)
  }

  ghost predicate SerialFits(s: State) {
    && Once(s.log) && OneOpen(s.requests)
    && (forall r :: 0 <= r < |s.requests| ==> Unwritten(s.log, s.requests[r]))
    && (forall r :: 0 <= r < |s.requests| ==> s.requests[r].frame.sessionId != "")
  }

  lemma OneOwner(sessions: map<string, LiveSession>, name: string, other: string, id: string)
    requires IssuedIn(sessions, name, id) && IssuedIn(sessions, other, id)
    ensures name == other
  {
    var n: nat :| 1 <= n <= sessions[name].nextId && id == TrackId(name, n);
    var m: nat :| 1 <= m <= sessions[other].nextId && id == TrackId(other, m);
    TrackIdInjective(name, n, other, m);
  }

  // Entries other than writes, and failed writes, add no success.
  lemma OtherEntryKeepsOnce(log: seq<Entry>, e: Entry)
    requires Once(log) && !(e.Wrote? && e.ok)
    ensures Once(log + [e])
    ensures forall q :: Unwritten(log, q) ==> Unwritten(log + [e], q)
  {
    forall p: nat, id: string
      ensures WroteOk(log + [e], p, id) ==> WroteOk(log, p, id)
    {
    }
  }

  // What a request in an idle session is asked for has not been written.
  lemma NotYetWritten(s: State, sessions: map<string, LiveSession>, name: string, d: Decision, p: nat)
    requires RequestsFit(s) && LogFits(s) && SerialFits(s) && Idle(s, name)
    requires Extends(s.sessions, sessions) && IssuedIn(sessions, name, d.trackId)
    requires Writes(d) && AsksRightly(s.log, d)
    ensures !WroteOk(s.log, p, d.trackId)
  {
    if WroteOk(s.log, p, d.trackId) {
      var e := s.log[p];
      assert WroteFits(s.requests, s.log, p) && WriteCommits(s.requests, s.log, p);
      var q := s.requests[e.request];
      assert RequestFits(s.sessions, q);
      IssuedExtends(s.sessions, sessions, SessionKey(q.frame.sessionId), d.trackId);
      OneOwner(sessions, name, SessionKey(q.frame.sessionId), d.trackId);
    }
  }

  lemma ObserveKeepsSerial(s: State, past: Histories, f: Frame)
    requires TracksFit(s, past) && RequestsFit(s) && LogFits(s) && SerialFits(s)
    requires DistinctStudents(f.observations) && f.sessionId != "" && Idle(s, f.sessionId)
    ensures SerialFits(AfterObserve(s, f))
  {
    var t, ds := AfterObserve(s, f), Observed(WorldOf(s), f).1;
    ObservedDecisions(s, past, f);
    ObserveExtends(WorldOf(s), f);
    OtherEntryKeepsOnce(s.log, Opened(|s.requests|, ds));
    forall j: nat, p: nat | j < |ds| && Writes(ds[j])
      ensures !WroteOk(s.log, p, ds[j].trackId)
    {
      NotYetWritten(s, t.sessions, f.sessionId, ds[j], p);
    }
    assert Unwritten(s.log, t.requests[|s.requests|]);
    forall r | 0 <= r < |t.requests|
      ensures Unwritten(t.log, t.requests[r])
    {
      assert Unwritten(s.log, t.requests[r]);
    }
  }

  // A successful write is the first for its track, and no other open request has
  // one of the track still to make.
  lemma WriteKeepsSerial(s: State, r: nat)
    requires RequestsFit(s) && LogFits(s) && SerialFits(s) && Ready(s, r)
    requires Writes(s.requests[r].decisions[s.requests[r].next])
    ensures SerialFits(AfterWrite(s, r))
  {
    var t, q := AfterWrite(s, r), s.requests[r];
    var e := t.log[|s.log|];
    assert Unwritten(s.log, q) && RequestFits(s.sessions, q) && !Handled(q, q.next);
    if e.ok {
      forall p: nat, id: string
        ensures WroteOk(t.log, p, id) <==> WroteOk(s.log, p, id) || (p == |s.log| && id == e.id)
        ensures !WroteOk(s.log, p, e.id)
      {
      }
      forall i | 0 <= i < |t.requests|
        ensures Unwritten(t.log, t.requests[i])
      {
        OthersUnwritten(s, r, i);
      }
    } else {
      OtherEntryKeepsOnce(s.log, e);
    }
  }

  lemma OthersUnwritten(s: State, r: nat, i: nat)
    requires RequestsFit(s) && SerialFits(s) && Ready(s, r) && i < |s.requests|
    requires Writes(s.requests[r].decisions[s.requests[r].next])
    ensures Unwritten(AfterWrite(s, r).log, AfterWrite(s, r).requests[i])
  {
    var t, q, q' := AfterWrite(s, r), s.requests[r], AfterWrite(s, r).requests[i];
    assert RequestFits(s.sessions, q) && RequestFits(s.sessions, s.requests[i]) && Unwritten(s.log, s.requests[i]);
    if Open(q') {
      forall j: nat, p: nat | j < |q'.decisions| && !Handled(q', j) && Writes(q'.decisions[j])
        ensures !WroteOk(t.log, p, q'.decisions[j].trackId)
      {
        assert !Handled(s.requests[i], j) && !WroteOk(s.log, p, q'.decisions[j].trackId);
        StillOther(s, r, i, j);
      }
    }
  }

  lemma StillOther(s: State, r: nat, i: nat, j: nat)
    requires RequestsFit(s) && SerialFits(s) && Ready(s, r) && i < |s.requests| && Open(s.requests[i])
    requires var q := s.requests[r]; Writes(q.decisions[q.next])
    requires j < |s.requests[i].decisions| && Writes(s.requests[i].decisions[j]) && (i == r ==> j > s.requests[r].next)
    ensures s.requests[i].decisions[j].trackId != s.requests[r].decisions[s.requests[r].next].trackId
  {
    var q, q' := s.requests[r], s.requests[i];
    assert RequestFits(s.sessions, q) && RequestFits(s.sessions, q');
    assert IssuedIn(s.sessions, SessionKey(q.frame.sessionId), q.decisions[q.next].trackId);
    assert IssuedIn(s.sessions, SessionKey(q'.frame.sessionId), q'.decisions[j].trackId);
    if i != r && q'.decisions[j].trackId == q.decisions[q.next].trackId {
      OneOwner(s.sessions, SessionKey(q.frame.sessionId), SessionKey(q'.frame.sessionId), q'.decisions[j].trackId);
    }
  }

  // Moving a request on opens none and leaves it less to write.
  lemma MovedKeepsSerial(s: State, t: State, r: nat)
    requires SerialFits(s) && r < |s.requests| && Open(s.requests[r])
    requires |t.requests| == |s.requests| && Follows(s.requests[r], t.requests[r])
    requires forall i :: 0 <= i < |s.requests| && i != r ==> t.requests[i] == s.requests[i]
    requires t.log == s.log || exists e :: t.log == s.log + [e] && !e.Wrote?
    ensures SerialFits(t)
  {
    if t.log != s.log {
      var e :| t.log == s.log + [e] && !e.Wrote?;
      OtherEntryKeepsOnce(s.log, e);
    }
    forall i | 0 <= i < |t.requests|
      ensures Unwritten(t.log, t.requests[i])
    {
      assert Unwritten(s.log, s.requests[i]);
      assert Unwritten(s.log, t.requests[i]);
    }
  }

  lemma StepKeepsSerial(s: State, past: Histories, step: Step)
    requires TracksFit(s, past) && RequestsFit(s) && LogFits(s) && SerialFits(s)
    requires step.Observe? ==>
               && DistinctStudents(step.frame.observations)
               && step.frame.sessionId != "" && Idle(s, step.frame.sessionId)
    ensures SerialFits(After(s, step))
  {
    match step
    case Observe(f) => ObserveKeepsSerial(s, past, f);
    case Decide(r) =>
      if Ready(s, r) {
        if Writes(s.requests[r].decisions[s.requests[r].next]) {
          WriteKeepsSerial(s, r);
        } else {
          MovedKeepsSerial(s, After(s, step), r);
        }
      }
    case Commit(r) =>
      if MayCommit(s, r) {
        assert RequestFits(s.sessions, s.requests[r]);
        MovedKeepsSerial(s, After(s, step), r);
      }
    case Enrol(student) => OtherEntryKeepsOnce(s.log, Enrolled(student));
    case Remove(student) => OtherEntryKeepsOnce(s.log, Removed(student));
  }

  lemma {:induction false} RunKeepsSerial(db: Db, steps: seq<Step>)
    requires DistinctFrames(steps) && Serial(db, steps)
    ensures SerialFits(Run(db, steps))
  {
    if steps != [] {
      var before := steps[..|steps| - 1];
      assert forall i :: 0 <= i < |before| ==> before[..i] == steps[..i];
      RunKeepsSerial(db, before);
      RunKeeps(db, before);
      assert steps[|steps| - 1] in steps;
      StepKeepsSerial(Run(db, before), PastOf(db, before), steps[|steps| - 1]);
    }
  }

  // If the requests of each session come one after the other, attendance succeeds
  // at most once per track, however the sessions overlap.
  lemma SerialSucceedsOnce(db: Db, steps: seq<Step>, p: nat, q: nat, id: string)
    requires DistinctFrames(steps) && Serial(db, steps) && p < q
    ensures var log := Run(db, steps).log;
            WroteOk(log, p, id) ==> !WroteOk(log, q, id)
  {
    RunKeepsSerial(db, steps);
  }

  // ---- What a day's row counts ----

  // The calls for a key that reported success since its student was last removed.
  function OkSince(log: seq<Entry>, key: (nat, string)): seq<Call> {
    if log == [] then []
    else
      var before, e := log[..|log| - 1], log[|log| - 1];
      if e.Removed? && e.student == key.0 then []
      else if e.Wrote? && e.ok && (e.call.student, e.call.day) == key then OkSince(before, key) + [e.call]
      else OkSince(before, key)
  }

  lemma {:induction false} OkSinceReported(db: Db, log: seq<Entry>, key: (nat, string))
    requires forall p :: 0 <= p < |log| ==> WriteTells(db, log, p)
    ensures OkSince(log, key) == ReportedCalls(db, Events(log), key)
  {
    if log != [] {
      var before, e := log[..|log| - 1], log[|log| - 1];
      forall p | 0 <= p < |before|
        ensures WriteTells(db, before, p)
      {
        assert before[..p] == log[..p] && WriteTells(db, log, p);
      }
      OkSinceReported(db, before, key);
      assert WriteTells(db, log, |before|) && log == before + [e];
      OkSinceNext(db, before, e, key);
    }
  }

  lemma OkSinceNext(db: Db, log: seq<Entry>, e: Entry, key: (nat, string))
    requires OkSince(log, key) == ReportedCalls(db, Events(log), key)
    requires e.Wrote? ==> (e.ok <==> CallSucceeds(RunEvents(db, Events(log)), e.call))
    ensures OkSince(log + [e], key) == ReportedCalls(db, Events(log + [e]), key)
  {
    assert (log + [e])[..|log|] == log;
    EventsNext(log, e);
    if EventsOf(e) == [] {
      assert Events(log) + EventsOf(e) == Events(log);
    } else {
      ReportedNext(db, Events(log), EventsOf(e)[0], key);
    }
  }

  lemma ReportedNext(db: Db, events: seq<Event>, e: Event, key: (nat, string))
    ensures ReportedCalls(db, events + [e], key) ==
              if e.Remove? && e.student == key.0 then []
              else if e.Mark? && (e.call.student, e.call.day) == key && CallSucceeds(RunEvents(db, events), e.call)
              then ReportedCalls(db, events, key) + [e.call] else ReportedCalls(db, events, key)
  {
    assert (events + [e])[..|events|] == events;
  }

  // In any run a day's count grows by the attendance reported as written exactly
  // if no call that stored failed late; otherwise it grows by more.
  lemma RunCounts(db: Db, steps: seq<Step>, key: (nat, string))
    requires ForeignKeys(db)
    ensures var s := Run(db, steps);
            var ok, stored := OkSince(s.log, key), StoredCalls(db, Events(s.log), key);
            var before := CountIn(StartingRow(db, Events(s.log), key));
            var after := if key in s.db.rows then Shown(s.db.rows[key]).count else 0;
            && before + |ok| <= after == before + |stored|
            && (after == before + |ok| <==> forall c :: c in stored ==> !FailsLate(c))
  {
    RunKeepsDb(db, steps);
    var log := Run(db, steps).log;
    OkSinceReported(db, log, key);
    CountsReportedIff(db, Events(log), key);
  }

  // ---- A request alone ----

  // One decision of a request, with nothing before its commit.
  function Acted(s: State, r: nat): State {
    After(After(s, Decide(r)), Commit(r))
  }

  // The first n decisions of a request, with nothing in between.
  function Alone(s: State, r: nat, n: nat): State {
    if n == 0 then s else Acted(Alone(s, r, n - 1), r)
  }

  lemma {:induction false} AloneInduction(inv: (State, nat) -> bool, s: State, r: nat, n: nat)
    requires inv(s, 0)
    requires forall v: State, k: nat :: k < n && inv(v, k) ==> inv(Acted(v, r), k + 1)
    ensures inv(Alone(s, r, n), n)
  {
    if n > 0 {
      AloneInduction(inv, s, r, n - 1);
    }
  }

  // Request r has taken its frame as far as the first n decisions take it.
  predicate AsFar(t: State, r: nat, f: Frame, ds: seq<Decision>, n: nat, w: World, failed: bool) {
    && t.sessions == w.sessions && t.db.rows == w.rows && r < |t.requests|
    && t.requests[r].frame == f && t.requests[r].decisions == ds
    && !t.requests[r].committing && t.requests[r].failed == failed
    && (!failed ==> t.requests[r].next == n)
  }

  lemma DecideAndCommit(t: State, r: nat, f: Frame, ds: seq<Decision>, n: nat, w: World)
    requires AsFar(t, r, f, ds, n, w, false) && n < |ds| == |f.observations|
    ensures var t', w' := Acted(t, r), AfterDecision(w, t.db.enrolled, f, ds, n);
            && AsFar(t', r, f, ds, n + 1, w', Writes(ds[n]) && !CallSucceeds(Db(w.rows, t.db.enrolled), CallFor(f, n)))
            && t'.db.enrolled == t.db.enrolled
  {
  }

  lemma NextStops(w: World, enrolled: set<nat>, f: Frame, ds: seq<Decision>, n: nat)
    requires 0 < n <= |ds| == |f.observations|
    ensures var before, after := AfterDecisions(w, enrolled, f, ds, n - 1), AfterDecisions(w, enrolled, f, ds, n);
            var call := CallFor(f, n - 1);
            after.2 <==> before.2 || (Writes(ds[n - 1]) && !CallSucceeds(Db(before.0.rows, enrolled), call))
  {
  }

  // ... as far as AfterDecisions takes it.
  ghost predicate Tracks(t: State, r: nat, f: Frame, ds: seq<Decision>, w: World, enrolled: set<nat>, n: nat)
    requires |ds| == |f.observations|
  {
    && n <= |ds| && t.db.enrolled == enrolled
    && var (w', _, failed) := AfterDecisions(w, enrolled, f, ds, n); AsFar(t, r, f, ds, n, w', failed)
  }

  lemma ActedTracks(t: State, r: nat, f: Frame, ds: seq<Decision>, w: World, enrolled: set<nat>, n: nat)
    requires n < |ds| == |f.observations| && Tracks(t, r, f, ds, w, enrolled, n)
    ensures Tracks(Acted(t, r), r, f, ds, w, enrolled, n + 1)
  {
    var before := AfterDecisions(w, enrolled, f, ds, n);
    NextDecision(w, enrolled, f, ds, n + 1);
    NextStops(w, enrolled, f, ds, n + 1);
    if !before.2 {
      DecideAndCommit(t, r, f, ds, n, before.0);
    }
  }

  // A request that nothing comes between is one frame of a run.
  lemma AloneIsFrame(s: State, f: Frame)
    ensures var t := Alone(AfterObserve(s, f), |s.requests|, |f.observations|);
            var (w, _, failed) := RunFrame(WorldOf(s), s.db.enrolled, f);
            && t.sessions == w.sessions && t.db == Db(w.rows, s.db.enrolled)
  {
    var (w, ds) := Observed(WorldOf(s), f);
    var t, r := AfterObserve(s, f), |s.requests|;
    forall v: State, k: nat | k < |ds| && Tracks(v, r, f, ds, w, s.db.enrolled, k)
      ensures Tracks(Acted(v, r), r, f, ds, w, s.db.enrolled, k + 1)
    {
      ActedTracks(v, r, f, ds, w, s.db.enrolled, k);
    }
    AloneInduction((v: State, k: nat) => Tracks(v, r, f, ds, w, s.db.enrolled, k), t, r, |ds|);
  }
}