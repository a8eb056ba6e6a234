// What the decisions of a frame lead to: the attempts to write attendance, the
// tallies, and the tracks marked (internal/web/recognition.go).
module FrameEffects {
  import opened Prelude
  import opened Liveness
  import opened Attendance
  import opened Recognition

  // ---- The tallies ----

  ghost function Spoofs(ds: seq<Decision>, n: nat): set<nat>
    requires n <= |ds|
  {
    set i: nat | i < n && ds[i].rejected
  }

  ghost function Verifieds(ds: seq<Decision>, n: nat): set<nat>
    requires n <= |ds|
  {
    set i: nat | i < n && !ds[i].rejected && ds[i].verified
  }

  ghost function TimedOuts(ds: seq<Decision>, n: nat): set<nat>
    requires n <= |ds|
  {
    set i: nat | i < n && !ds[i].rejected && !ds[i].verified && ds[i].timedOut
  }

  ghost function Open(ds: seq<Decision>, n: nat): set<nat>
    requires n <= |ds|
  {
    set i: nat | i < n && !ds[i].rejected && !ds[i].verified && !ds[i].timedOut
  }

  ghost predicate TalliesTell(t: Tally, ds: seq<Decision>, n: nat)
    requires n <= |ds|
  {
    && t.spoof == |Spoofs(ds, n)| && t.verified == |Verifieds(ds, n)|
    && t.timedOut == |TimedOuts(ds, n)| && t.pending == |Open(ds, n)|
  }

  lemma CountsNext(ds: seq<Decision>, n: nat)
    requires n < |ds|
    ensures var d := ds[n];
            && Spoofs(ds, n + 1) == Spoofs(ds, n) + (if d.rejected then {n} else {})
            && Verifieds(ds, n + 1) == Verifieds(ds, n) + (if !d.rejected && d.verified then {n} else {})
            && TimedOuts(ds, n + 1)
               == TimedOuts(ds, n) + (if !d.rejected && !d.verified && d.timedOut then {n} else {})
            && Open(ds, n + 1) == Open(ds, n) + (if !d.rejected && !d.verified && !d.timedOut then {n} else {})
  {
  }

  // A frame that is not ended by a failed write tallies every decision, each where
  // it belongs.
  lemma {:induction false} TalliesCount(w: World, enrolled: set<nat>, f: Frame, ds: seq<Decision>, n: nat)
    requires n <= |ds| == |f.observations| && !AfterDecisions(w, enrolled, f, ds, n).2
    ensures TalliesTell(AfterDecisions(w, enrolled, f, ds, n).1, ds, n)
  {
    if n == 0 {
      assert Spoofs(ds, 0) == {} && Verifieds(ds, 0) == {} && TimedOuts(ds, 0) == {} && Open(ds, 0) == {};
    } else {
      TalliesCount(w, enrolled, f, ds, n - 1);
      TallyNext(AfterDecisions(w, enrolled, f, ds, n - 1).1, AfterDecisions(w, enrolled, f, ds, n).1, ds, n - 1);
    }
  }

  lemma TallyNext(t: Tally, t': Tally, ds: seq<Decision>, n: nat)
    requires n < |ds| && TalliesTell(t, ds, n)
    requires t' == if ds[n].rejected then t.(spoof := t.spoof + 1)
                   else if ds[n].verified then t.(verified := t.verified + 1)
                   else if ds[n].timedOut then t.(timedOut := t.timedOut + 1)
                   else t.(pending := t.pending + 1)
    ensures TalliesTell(t', ds, n + 1)
  {
    CountsNext(ds, n);
    var d := ds[n];
    OneMore(Spoofs(ds, n), n, d.rejected);
    OneMore(Verifieds(ds, n), n, !d.rejected && d.verified);
    OneMore(TimedOuts(ds, n), n, !d.rejected && !d.verified && d.timedOut);
    OneMore(Open(ds, n), n, !d.rejected && !d.verified && !d.timedOut);
  }

  lemma OneMore(places: set<nat>, n: nat, more: bool)
    requires n !in places
    ensures |places + if more then {n} else {}| == |places| + if more then 1 else 0
  {
    assert !more ==> places + {} == places;
  }

  // ---- The attempts ----

  predicate Needs(d: Decision) {
    !d.rejected && d.verified && d.needsAttendance
  }

  // The attempt is for the student of the i-th observation, with the similarity seen
  // there, on the day and at the time of the frame.
  predicate AttemptOf(a: Attempt, f: Frame, ds: seq<Decision>, i: nat)
    requires |ds| == |f.observations|
  {
    && i < |ds| && Needs(ds[i]) && a.trackId == ds[i].trackId
    && a.call.student == f.observations[i].student && a.call.similarity == f.observations[i].similarity
    && a.call.day == f.day && a.call.now == f.now
    && a.call.fault == if i < |f.faults| then f.faults[i] else NoFault
  }

  // The attempts are those of the decisions at these places.
  ghost predicate AttemptsAt(news: seq<Attempt>, f: Frame, ds: seq<Decision>, n: nat, at: seq<nat>)
    requires |ds| == |f.observations|
  {
    && |at| == |news|
    && (forall j: nat :: j < |at| ==> at[j] < n && AttemptOf(news[j], f, ds, at[j]))
    && (forall i: nat, j: nat :: i < j < |at| ==> at[i] < at[j])
  }

  // Every decision that needs one has one, up to the first failed one, which ends
  // the frame.
  ghost predicate AllTried(news: seq<Attempt>, ds: seq<Decision>, n: nat, at: seq<nat>, stopped: bool)
    requires n <= |ds| && |at| == |news|
  {
    && (forall i: nat :: i < n && Needs(ds[i]) && (stopped ==> at != [] && i <= at[|at| - 1]) ==> i in at)
    && (forall j: nat :: j < |news| && (stopped ==> j < |news| - 1) ==> news[j].ok)
    && (stopped ==> news != [] && !news[|news| - 1].ok)
  }

  ghost predicate Tried(news: seq<Attempt>, f: Frame, ds: seq<Decision>, n: nat, stopped: bool)
    requires n <= |ds| == |f.observations|
  {
    exists at: seq<nat> :: AttemptsAt(news, f, ds, n, at) && AllTried(news, ds, n, at, stopped)
  }

  lemma AttemptsNext(news: seq<Attempt>, f: Frame, ds: seq<Decision>, n: nat, at: seq<nat>, a: Attempt)
    requires n < |ds| == |f.observations| && AttemptsAt(news, f, ds, n, at) && AttemptOf(a, f, ds, n)
    ensures AttemptsAt(news + [a], f, ds, n + 1, at + [n])
  {
    forall j: nat | j < |at| + 1
      ensures (at + [n])[j] < n + 1 && AttemptOf((news + [a])[j], f, ds, (at + [n])[j])
    {
      if j < |at| {
        assert (at + [n])[j] == at[j] && (news + [a])[j] == news[j];
      }
    }
  }

  lemma AllTriedNext(news: seq<Attempt>, ds: seq<Decision>, n: nat, at: seq<nat>, a: Attempt)
    requires n < |ds| && |at| == |news| && AllTried(news, ds, n, at, false)
    ensures AllTried(news + [a], ds, n + 1, at + [n], !a.ok)
  {
    forall i: nat | i < n + 1 && Needs(ds[i])
      ensures i in at + [n]
    {
      if i < n {
        assert i in at;
      }
    }
  }

  lemma TriedNext(news: seq<Attempt>, f: Frame, ds: seq<Decision>, n: nat, a: Attempt)
    requires n < |ds| == |f.observations| && Tried(news, f, ds, n, false) && AttemptOf(a, f, ds, n)
    ensures Tried(news + [a], f, ds, n + 1, !a.ok)
  {
    var at: seq<nat> :| AttemptsAt(news, f, ds, n, at) && AllTried(news, ds, n, at, false);
    AttemptsNext(news, f, ds, n, at, a);
    AllTriedNext(news, ds, n, at, a);
  }

  lemma TriedStays(news: seq<Attempt>, f: Frame, ds: seq<Decision>, n: nat, stopped: bool)
    requires n < |ds| == |f.observations| && Tried(news, f, ds, n, stopped) && (stopped || !Needs(ds[n]))
    ensures Tried(news, f, ds, n + 1, stopped)
  {
    var at: seq<nat> :| AttemptsAt(news, f, ds, n, at) && AllTried(news, ds, n, at, stopped);
    assert AttemptsAt(news, f, ds, n + 1, at) && AllTried(news, ds, n + 1, at, stopped);
  }

  // What one more decision adds to the attempts, and which track it marks.
  ghost predicate NextIs(w1: World, stopped1: bool, w2: World, stopped2: bool, f: Frame, ds: seq<Decision>, n: nat)
    requires n < |ds| == |f.observations|
  {
    if !stopped1 && Needs(ds[n]) then
      |w2.attempts| == |w1.attempts| + 1
      && (var a := w2.attempts[|w1.attempts|];
          && w2.attempts == w1.attempts + [a] && AttemptOf(a, f, ds, n) && stopped2 == !a.ok
          && w2.sessions == if a.ok then CommitIn(w1.sessions, f.sessionId, a.trackId) else w1.sessions)
    else w2.attempts == w1.attempts && w2.sessions == w1.sessions && stopped2 == stopped1
  }

  lemma NextAttempt(w: World, enrolled: set<nat>, f: Frame, ds: seq<Decision>, n: nat)
    requires n < |ds| == |f.observations|
    ensures NextIs(AfterDecisions(w, enrolled, f, ds, n).0, AfterDecisions(w, enrolled, f, ds, n).2,
                   AfterDecisions(w, enrolled, f, ds, n + 1).0, AfterDecisions(w, enrolled, f, ds, n + 1).2, f, ds, n)
  {
  }

  // What every decision keeps, a frame keeps.
  lemma {:induction false} AttemptsInduction(inv: (World, bool, nat) -> bool, w: World, enrolled: set<nat>, f: Frame,
                                             ds: seq<Decision>, n: nat)
    requires n <= |ds| == |f.observations| && inv(w, false, 0)
    requires forall w1: World, stopped1: bool, w2: World, stopped2: bool, k: nat ::
               inv(w1, stopped1, k) && k < |ds| && NextIs(w1, stopped1, w2, stopped2, f, ds, k) ==>
                   inv(w2, stopped2, k + 1)
    ensures inv(AfterDecisions(w, enrolled, f, ds, n).0, AfterDecisions(w, enrolled, f, ds, n).2, n)
  {
    if n > 0 {
      AttemptsInduction(inv, w, enrolled, f, ds, n - 1);
      NextAttempt(w, enrolled, f, ds, n - 1);
    }
  }

  // The attempts a frame has added.
  ghost predicate HasTried(before: seq<Attempt>, after: seq<Attempt>, f: Frame, ds: seq<Decision>, n: nat,
                           stopped: bool) {
    n <= |ds| == |f.observations| && before <= after && Tried(after[|before|..], f, ds, n, stopped)
  }

  lemma TriesNext(before: seq<Attempt>, w1: World, stopped1: bool, w2: World, stopped2: bool, f: Frame,
                  ds: seq<Decision>, n: nat)
    requires n < |ds| && HasTried(before, w1.attempts, f, ds, n, stopped1)
    requires NextIs(w1, stopped1, w2, stopped2, f, ds, n)
    ensures HasTried(before, w2.attempts, f, ds, n + 1, stopped2)
  {
    var news := w1.attempts[|before|..];
    if stopped1 || !Needs(ds[n]) {
      TriedStays(news, f, ds, n, stopped1);
    } else {
      var a := w2.attempts[|w1.attempts|];
      TriedNext(news, f, ds, n, a);
      assert w2.attempts[|before|..] == news + [a];
    }
  }

  // The attempts of a frame: one for each decision that needs one, in order, each
  // with what its observation says, up to the first that fails.
  lemma FrameTries(w: World, enrolled: set<nat>, f: Frame, ds: seq<Decision>)
    requires |ds| == |f.observations|
    ensures HasTried(w.attempts, AfterDecisions(w, enrolled, f, ds, |ds|).0.attempts, f, ds, |ds|,
                     AfterDecisions(w, enrolled, f, ds, |ds|).2)
  {
    var inv := (v: World, stopped: bool, n: nat) => HasTried(w.attempts, v.attempts, f, ds, n, stopped);
    NothingTried(w.attempts, f, ds);
    forall w1: World, stopped1: bool, w2: World, stopped2: bool, k: nat
      | inv(w1, stopped1, k) && k < |ds| && NextIs(w1, stopped1, w2, stopped2, f, ds, k)
      ensures inv(w2, stopped2, k + 1)
    {
      TriesNext(w.attempts, w1, stopped1, w2, stopped2, f, ds, k);
    }
    AttemptsInduction(inv, w, enrolled, f, ds, |ds|);
  }

  lemma NothingTried(before: seq<Attempt>, f: Frame, ds: seq<Decision>)
    requires |ds| == |f.observations|
    ensures HasTried(before, before, f, ds, 0, false)
  {
    var at: seq<nat> := [];
    assert before[|before|..] == [];
    assert AttemptsAt([], f, ds, 0, at) && AllTried([], ds, 0, at, false);
  }

  // ---- The tracks marked ----

  // A track is marked if it was, or if an attempt for it succeeded.
  ghost predicate Marked(t: LiveTrack, t': LiveTrack, news: seq<Attempt>) {
    t' == t.(committed := t.committed || exists j: nat :: j < |news| && news[j].ok && news[j].trackId == t.id)
  }

  ghost predicate OnlyMarks(s: map<string, LiveSession>, s': map<string, LiveSession>, sessionId: string,
                            news: seq<Attempt>) {
    && s'.Keys == s.Keys
    && (forall name :: name in s && name != sessionId ==> s'[name] == s[name])
    && (sessionId in s ==>
          && s'[sessionId].nextId == s[sessionId].nextId
          && s'[sessionId].tracks.Keys == s[sessionId].tracks.Keys
          && forall k :: k in s[sessionId].tracks ==> Marked(s[sessionId].tracks[k], s'[sessionId].tracks[k], news))
  }

  lemma MarksNext(s: map<string, LiveSession>, s1: map<string, LiveSession>, sessionId: string, news: seq<Attempt>,
                  a: Attempt)
    requires OnlyMarks(s, s1, sessionId, news)
    ensures OnlyMarks(s, if a.ok then CommitIn(s1, sessionId, a.trackId) else s1, sessionId, news + [a])
  {
    var s2 := if a.ok then CommitIn(s1, sessionId, a.trackId) else s1;
    if sessionId in s {
      forall k | k in s[sessionId].tracks
        ensures Marked(s[sessionId].tracks[k], s2[sessionId].tracks[k], news + [a])
      {
        MarkNext(s[sessionId].tracks[k], s1[sessionId].tracks[k], s2[sessionId].tracks[k], news, a);
      }
    }
  }

  lemma MarkNext(t: LiveTrack, t1: LiveTrack, t2: LiveTrack, news: seq<Attempt>, a: Attempt)
    requires Marked(t, t1, news)
    requires t2 == t1.(committed := t1.committed || (a.ok && t1.id == a.trackId))
    ensures Marked(t, t2, news + [a])
  {
    assert (news + [a])[|news|] == a;
    assert forall j: nat :: j < |news| ==> (news + [a])[j] == news[j];
  }

  ghost predicate HasMarked(w: World, v: World, sessionId: string) {
    w.attempts <= v.attempts && OnlyMarks(w.sessions, v.sessions, sessionId, v.attempts[|w.attempts|..])
  }

  lemma MarksWith(w: World, w1: World, stopped1: bool, w2: World, stopped2: bool, f: Frame, ds: seq<Decision>, n: nat)
    requires n < |ds| == |f.observations| && NextIs(w1, stopped1, w2, stopped2, f, ds, n)
    requires HasMarked(w, w1, f.sessionId)
    ensures HasMarked(w, w2, f.sessionId)
  {
    if !stopped1 && Needs(ds[n]) {
      var a := w2.attempts[|w1.attempts|];
      MarksNext(w.sessions, w1.sessions, f.sessionId, w1.attempts[|w.attempts|..], a);
      assert w2.attempts[|w.attempts|..] == w1.attempts[|w.attempts|..] + [a];
    }
  }

  // A frame marks exactly the tracks for which an attempt of its own succeeded.
  lemma FrameMarks(w: World, enrolled: set<nat>, f: Frame, ds: seq<Decision>)
    requires |ds| == |f.observations|
    ensures HasMarked(w, AfterDecisions(w, enrolled, f, ds, |ds|).0, f.sessionId)
  {
    var inv := (v: World, stopped: bool, n: nat) => HasMarked(w, v, f.sessionId);
    forall w1: World, stopped1: bool, w2: World, stopped2: bool, k: nat
      | inv(w1, stopped1, k) && k < |ds| && NextIs(w1, stopped1, w2, stopped2, f, ds, k)
      ensures inv(w2, stopped2, k + 1)
    {
      MarksWith(w, w1, stopped1, w2, stopped2, f, ds, k);
    }
    AttemptsInduction(inv, w, enrolled, f, ds, |ds|);
  }
}
