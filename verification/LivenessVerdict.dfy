// What the liveness vote decides, in terms of the scores seen and with the numbers
// of internal/web/recognition_track.go written out.
module LivenessVerdict {
  import opened Folding
  import opened TrackNames
  import opened Liveness

  // ---- The verdict on a list of scores ----

  ghost function Below(h: seq<real>): set<nat> {
    set i: nat | i < |h| && h[i] < 0.40
  }

  ghost function Above(h: seq<real>): set<nat> {
    set i: nat | i < |h| && h[i] >= 0.60
  }

  function Total(h: seq<real>): real {
    if h == [] then 0.0 else h[0] + Total(h[1..])
  }

  ghost predicate LooksFake(h: seq<real>) {
    |h| >= 3 && Total(h) / |h| as real < 0.40 && |Below(h)| >= 2
  }

  ghost predicate LooksLive(h: seq<real>) {
    || (|h| >= 3 && Total(h) / |h| as real >= 0.80 && forall i: nat :: i < |h| ==> h[i] >= 0.60)
    || (|h| >= 4 && Total(h) / |h| as real >= 0.68 && |Above(h)| >= 3)
  }

  // The first n scores settle the matter, and no fewer do.
  ghost predicate SettledAt(h: seq<real>, n: nat) {
    && n <= |h| && (LooksFake(h[..n]) || LooksLive(h[..n]))
    && forall m: nat :: m < n ==> !LooksFake(h[..m]) && !LooksLive(h[..m])
  }

  ghost predicate FoundFake(h: seq<real>) {
    exists n: nat :: SettledAt(h, n) && LooksFake(h[..n])
  }

  ghost predicate FoundLive(h: seq<real>) {
    exists n: nat :: SettledAt(h, n) && LooksLive(h[..n])
  }

  lemma {:induction false} SpoofVotesCount(h: seq<real>)
    ensures SpoofVotes(h) == |Below(h)|
  {
    if h == [] {
      assert Below(h) == {};
    } else {
      var before, last: nat := h[..|h| - 1], |h| - 1;
      SpoofVotesCount(before);
      if h[last] < 0.40 {
        assert Below(h) == Below(before) + {last};
      } else {
        assert Below(h) == Below(before);
      }
    }
  }

  lemma {:induction false} LiveVotesCount(h: seq<real>)
    ensures LiveVotes(h) == |Above(h)|
  {
    if h == [] {
      assert Above(h) == {};
    } else {
      var before, last: nat := h[..|h| - 1], |h| - 1;
      LiveVotesCount(before);
      if h[last] >= 0.60 {
        assert Above(h) == Above(before) + {last};
      } else {
        assert Above(h) == Above(before);
      }
    }
  }

  lemma {:induction false} AllLiveIff(h: seq<real>)
    ensures LiveVotes(h) == |h| <==> forall i: nat :: i < |h| ==> h[i] >= 0.60
  {
    if h != [] {
      var before := h[..|h| - 1];
      AllLiveIff(before);
      assert forall i: nat :: i < |before| ==> h[i] == before[i];
    }
  }

  lemma {:induction false} SumIsTotal(h: seq<real>)
    ensures Sum(h) == Total(h)
  {
    if |h| == 1 {
      assert h[..0] == [] && h[1..] == [];
    } else if |h| > 1 {
      var last := |h| - 1;
      SumIsTotal(h[1..]);
      SumIsTotal(h[..last]);
      SumIsTotal(h[1..last]);
      assert h[1..][..last - 1] == h[1..last] && h[..last][1..] == h[1..last];
    }
  }

  lemma JudgeIff(h: seq<real>)
    ensures Judge(h) == Fake <==> LooksFake(h)
    ensures Judge(h) == Live <==> LooksLive(h)
  {
    SpoofVotesCount(h);
    LiveVotesCount(h);
    AllLiveIff(h);
    SumIsTotal(h);
  }

  lemma JudgesPrefix(h: seq<real>, n: nat)
    requires n <= |h|
    ensures Judge(h[..n]) == Undecided <==> !LooksFake(h[..n]) && !LooksLive(h[..n])
  {
    JudgeIff(h[..n]);
  }

  lemma {:induction false} UndecidedIff(h: seq<real>)
    ensures VerdictOf(h) == Undecided <==> forall n: nat :: n <= |h| ==> Judge(h[..n]) == Undecided
  {
    if h == [] {
      assert Judge(h) == Undecided;
    } else {
      var before := h[..|h| - 1];
      UndecidedIff(before);
      assert forall n: nat :: n <= |before| ==> h[..n] == before[..n];
      assert h[..|h|] == h;
    }
  }

  // A verdict is that of the first list of scores, from the first one on, that looks
  // fake or live.
  lemma {:induction false} VerdictFound(h: seq<real>)
    requires VerdictOf(h) != Undecided
    ensures exists n: nat :: SettledAt(h, n) && Judge(h[..n]) == VerdictOf(h)
  {
    var before := h[..|h| - 1];
    if VerdictOf(before) != Undecided {
      VerdictFound(before);
      var n: nat :| SettledAt(before, n) && Judge(before[..n]) == VerdictOf(before);
      assert forall m: nat :: m <= n ==> h[..m] == before[..m];
      assert SettledAt(h, n);
    } else {
      UndecidedIff(before);
      JudgesPrefix(h, |h|);
      assert h[..|h|] == h;
      forall m: nat | m < |h|
        ensures !LooksFake(h[..m]) && !LooksLive(h[..m])
      {
        assert h[..m] == before[..m];
        JudgesPrefix(h, m);
      }
      assert SettledAt(h, |h|);
    }
  }

  lemma SettledOnce(h: seq<real>, m: nat, n: nat)
    requires SettledAt(h, m) && SettledAt(h, n)
    ensures m == n
  {
  }

  // The verdict on a history, in terms of its scores.
  lemma VerdictIff(h: seq<real>)
    ensures VerdictOf(h) == Fake <==> FoundFake(h)
    ensures VerdictOf(h) == Live <==> FoundLive(h)
  {
    if VerdictOf(h) != Undecided {
      VerdictFound(h);
      var n: nat :| SettledAt(h, n) && Judge(h[..n]) == VerdictOf(h);
      JudgeIff(h[..n]);
      forall m: nat | SettledAt(h, m)
        ensures m == n
      {
        SettledOnce(h, m, n);
      }
    } else {
      UndecidedIff(h);
      forall n: nat | n <= |h|
        ensures !LooksFake(h[..n]) && !LooksLive(h[..n])
      {
        JudgesPrefix(h, n);
      }
    }
  }

  // ---- The decisions of a frame ----

  function Scores(seen: seq<Seen>): seq<real> {
    seq(|seen|, i requires 0 <= i < |seen| => seen[i].observation.liveScore)
  }

  function Matches(seen: seq<Seen>): seq<real> {
    seq(|seen|, i requires 0 <= i < |seen| => seen[i].observation.similarity)
  }

  // The averages over the scores of the last six frames and over all similarities.
  ghost predicate Measured(d: Decision, seen: seq<Seen>)
    requires seen != []
  {
    var n := |seen|;
    && d.frames == (if n < 6 then n else 6)
    && d.liveScore == Total(Scores(seen)[n - d.frames..]) / d.frames as real
    && d.similarity == Total(Matches(seen)) / n as real
  }

  // What is decided of a track that has been seen like this, the last time now.
  ghost predicate Voted(d: Decision, seen: seq<Seen>, created: int, committed: bool, now: int) {
    var h := Scores(seen);
    && (d.verified <==> FoundLive(h)) && (d.rejected <==> FoundFake(h))
    && (d.timedOut <==> !FoundLive(h) && !FoundFake(h) && (now - created >= 2000 || |seen| >= 6))
    && (d.needsAttendance <==> FoundLive(h) && !committed)
  }

  // What the user is told: how many frames are needed, and where the vote stands.
  predicate Announced(d: Decision, n: nat) {
    if d.verified then d.status == Passed && d.requiredFrames == 3
    else if d.rejected then d.status == Spoof && d.requiredFrames == 3
    else if d.timedOut then d.status == TimedOutStatus && d.requiredFrames == 3
    else if n < 3 then d.status == Checking && d.requiredFrames == 3
    else d.status == Rechecking && d.requiredFrames == if n == 3 then 4 else 6
  }

  ghost predicate Decided(d: Decision, seen: seq<Seen>, created: int, committed: bool, now: int)
    requires seen != []
  {
    Measured(d, seen) && Voted(d, seen, created, committed, now) && Announced(d, |seen|)
  }

  lemma DecidedNext(t: LiveTrack, seen: seq<Seen>, x: Seen, u: LiveTrack, timedOut: bool)
    requires Remembers(t, seen) && u.frames > 0 && (u, timedOut) == StepTrack(t, x.observation, x.at)
    ensures Decided(DecisionOf(u, timedOut), seen + [x], t.firstSeen, t.committed, x.at)
  {
    TalliedNext(t, seen, x, u, timedOut);
    MeasuredAll(u, timedOut, seen + [x]);
    VotedNext(t, seen, x, u, timedOut);
    AnnouncedAll(u, timedOut, |seen| + 1);
  }

  lemma TalliedNext(t: LiveTrack, seen: seq<Seen>, x: Seen, u: LiveTrack, timedOut: bool)
    requires Remembers(t, seen) && (u, timedOut) == StepTrack(t, x.observation, x.at)
    ensures u.frames == |seen| + 1 && u.scores == LastSix(LiveScores(seen + [x]))
    ensures u.similaritySum == Sum(Similarities(seen + [x]))
    ensures |seen| + 1 > 6 ==> u.verified || u.rejected
  {
    SeenNext(seen, x);
    LastSixNext(LiveScores(seen), x.observation.liveScore);
  }

  lemma AnnouncedAll(u: LiveTrack, timedOut: bool, n: nat)
    requires u.frames > 0 && |u.scores| == if n < 6 then n else 6
    ensures Announced(DecisionOf(u, timedOut), n)
  {
  }

  lemma MeasuredAll(u: LiveTrack, timedOut: bool, seen: seq<Seen>)
    requires u.frames == |seen| > 0 && u.scores == LastSix(LiveScores(seen))
    requires u.similaritySum == Sum(Similarities(seen))
    ensures Measured(DecisionOf(u, timedOut), seen)
  {
    assert Scores(seen) == LiveScores(seen) && Matches(seen) == Similarities(seen);
    SumIsTotal(Similarities(seen));
    SumIsTotal(LastSix(LiveScores(seen)));
  }

  lemma VotedNext(t: LiveTrack, seen: seq<Seen>, x: Seen, u: LiveTrack, timedOut: bool)
    requires Remembers(t, seen) && u.frames > 0 && (u, timedOut) == StepTrack(t, x.observation, x.at)
    ensures Voted(DecisionOf(u, timedOut), seen + [x], t.firstSeen, t.committed, x.at)
  {
    var h, score := LiveScores(seen), x.observation.liveScore;
    SeenNext(seen, x);
    LastSixNext(h, score);
    VerdictNext(h, score);
    VerdictIff(h + [score]);
    assert Scores(seen + [x]) == h + [score];
  }

  // A live track was created and last seen when its history says.
  lemma {:induction false} TimesOf(start: LiveTrack, seen: seq<Seen>)
    ensures var t := Replay(start, seen);
            t.firstSeen == start.firstSeen && (seen != [] ==> t.lastSeen == seen[|seen| - 1].at)
  {
    if seen != [] {
      TimesOf(start, seen[..|seen| - 1]);
    }
  }

  lemma EntryRemembers(name: string, t: LiveTrack, student: nat, p: Past, nextId: nat)
    requires ValidEntry(name, t, student, p, nextId)
    ensures Remembers(t, p.seen) && t.firstSeen == p.created && t.lastSeen == p.seen[|p.seen| - 1].at
  {
    LiveTrackRemembers(TrackId(name, p.number), student, p.created, p.seen);
    TimesOf(NewTrack(TrackId(name, p.number), student, p.created), p.seen);
  }

  // ---- All of them, and the tracks left behind ----

  // How often the student's track has been seen once it is seen now, and since when.
  ghost function SeenWith(s: LiveSession, past: map<nat, Past>, o: Observation, now: int): seq<Seen>
    requires s.tracks.Keys == past.Keys
  {
    (if o.student in s.tracks then past[o.student].seen else []) + [Seen(o, now)]
  }

  ghost function SeenSince(s: LiveSession, past: map<nat, Past>, k: nat, now: int): int
    requires s.tracks.Keys == past.Keys
  {
    if k in s.tracks then past[k].created else now
  }

  predicate WasCommitted(s: LiveSession, k: nat) {
    k in s.tracks && s.tracks[k].committed
  }

  // The decision is on the student's track, or on a new one with a number not used
  // before, which stays as decided unless it has timed out.
  ghost predicate Moved(name: string, s: LiveSession, s': LiveSession, d: Decision, k: nat) {
    && (if k in s.tracks then d.trackId == s.tracks[k].id else IsNew(name, s, s', d.trackId))
    && (k in s'.tracks <==> !d.timedOut)
    && (k in s'.tracks ==> s'.tracks[k].id == d.trackId && s'.tracks[k].committed == WasCommitted(s, k)
                           && s'.tracks[k].verified == d.verified && s'.tracks[k].rejected == d.rejected)
  }

  ghost predicate IsNew(name: string, s: LiveSession, s': LiveSession, id: string) {
    exists n: nat :: s.nextId < n <= s'.nextId && id == TrackId(name, n)
  }

  ghost predicate SameTrack(s: LiveSession, past: map<nat, Past>, s': LiveSession, past': map<nat, Past>, k: nat)
    requires s.tracks.Keys == past.Keys && s'.tracks.Keys == past'.Keys
  {
    (k in s'.tracks <==> k in s.tracks) && (k in s.tracks ==> s'.tracks[k] == s.tracks[k] && past'[k] == past[k])
  }

  // What one observation makes of the session and its histories.
  ghost predicate Follows(name: string, s: LiveSession, past: map<nat, Past>, s': LiveSession, past': map<nat, Past>,
                          d: Decision, o: Observation, now: int)
    requires s.tracks.Keys == past.Keys && s'.tracks.Keys == past'.Keys
  {
    var seen, created := SeenWith(s, past, o, now), SeenSince(s, past, o.student, now);
    && Decided(d, seen, created, WasCommitted(s, o.student), now)
    && Moved(name, s, s', d, o.student)
    && Recorded(past', o.student, seen, created)
  }

  ghost predicate Recorded(past: map<nat, Past>, k: nat, seen: seq<Seen>, created: int) {
    k in past ==> past[k].seen == seen && past[k].created == created
  }

  lemma StepCounts(t: LiveTrack, o: Observation, now: int)
    ensures StepTrack(t, o, now).0.frames == t.frames + 1
  {
  }

  lemma KnownBefore(name: string, s: LiveSession, past: map<nat, Past>, k: nat, now: int)
    requires ValidSession(name, s, past)
    ensures var t := TrackFor(name, s, k, now);
            && Remembers(t, if k in s.tracks then past[k].seen else [])
            && t.firstSeen == SeenSince(s, past, k, now) && t.committed == WasCommitted(s, k)
  {
    if k in s.tracks {
      assert ValidEntry(name, s.tracks[k], k, past[k], s.nextId);
      EntryRemembers(name, s.tracks[k], k, past[k], s.nextId);
    }
  }

  lemma OneDecided(name: string, s: LiveSession, past: map<nat, Past>, o: Observation, now: int)
    requires ValidSession(name, s, past)
    ensures Decided(ObserveOne(name, s, o, now).1, SeenWith(s, past, o, now), SeenSince(s, past, o.student, now),
                    WasCommitted(s, o.student), now)
  {
    var t := TrackFor(name, s, o.student, now);
    var seen := if o.student in s.tracks then past[o.student].seen else [];
    KnownBefore(name, s, past, o.student, now);
    StepCounts(t, o, now);
    DecidedNext(t, seen, Seen(o, now), StepTrack(t, o, now).0, StepTrack(t, o, now).1);
  }

  lemma OneMoves(name: string, s: LiveSession, o: Observation, now: int)
    ensures var (s', d) := ObserveOne(name, s, o, now);
            s.nextId <= s'.nextId && Moved(name, s, s', d, o.student)
  {
    var s' := ObserveOne(name, s, o, now).0;
    assert o.student !in s.tracks ==> s.nextId < s'.nextId;
  }

  lemma OneRecorded(name: string, s: LiveSession, past: map<nat, Past>, o: Observation, now: int)
    requires s.tracks.Keys == past.Keys
    ensures ObserveOne(name, s, o, now).0.tracks.Keys == PastAfter(name, s, past, o, now).Keys
    ensures Recorded(PastAfter(name, s, past, o, now), o.student, SeenWith(s, past, o, now),
                     SeenSince(s, past, o.student, now))
  {
  }

  lemma OneFollows(name: string, s: LiveSession, past: map<nat, Past>, o: Observation, now: int)
    requires ValidSession(name, s, past)
    ensures ObserveOne(name, s, o, now).0.tracks.Keys == PastAfter(name, s, past, o, now).Keys
    ensures Follows(name, s, past, ObserveOne(name, s, o, now).0, PastAfter(name, s, past, o, now),
                    ObserveOne(name, s, o, now).1, o, now)
  {
    OneDecided(name, s, past, o, now);
    OneMoves(name, s, o, now);
    OneRecorded(name, s, past, o, now);
  }

  lemma OthersStay(name: string, s: LiveSession, past: map<nat, Past>, o: Observation, now: int, k: nat)
    requires s.tracks.Keys == past.Keys && k != o.student
    ensures var s', past' := ObserveOne(name, s, o, now).0, PastAfter(name, s, past, o, now);
            s'.tracks.Keys == past'.Keys && SameTrack(s, past, s', past', k)
  {
  }

  ghost predicate NotSeen(os: seq<Observation>, k: nat) {
    forall i: nat :: i < |os| ==> os[i].student != k
  }

  ghost predicate OthersSame(s: LiveSession, past: map<nat, Past>, s': LiveSession, past': map<nat, Past>,
                             os: seq<Observation>)
    requires s.tracks.Keys == past.Keys && s'.tracks.Keys == past'.Keys
  {
    s.nextId <= s'.nextId && forall k: nat :: NotSeen(os, k) ==> SameTrack(s, past, s', past', k)
  }

  ghost predicate AllFollow(name: string, s: LiveSession, past: map<nat, Past>, s': LiveSession, past': map<nat, Past>,
                            ds: seq<Decision>, os: seq<Observation>, now: int)
    requires s.tracks.Keys == past.Keys && s'.tracks.Keys == past'.Keys
  {
    && |ds| == |os|
    && forall i: nat :: i < |os| ==> Follows(name, s, past, s', past', ds[i], os[i], now)
  }

  lemma FollowsFrom(name: string, s: LiveSession, past: map<nat, Past>, s1: LiveSession, past1: map<nat, Past>,
                    s2: LiveSession, past2: map<nat, Past>, d: Decision, o: Observation, now: int)
    requires s.tracks.Keys == past.Keys && s1.tracks.Keys == past1.Keys && s2.tracks.Keys == past2.Keys
    requires SameTrack(s, past, s1, past1, o.student) && s.nextId <= s1.nextId
    requires Follows(name, s1, past1, s2, past2, d, o, now)
    ensures Follows(name, s, past, s2, past2, d, o, now)
  {
    assert SeenWith(s, past, o, now) == SeenWith(s1, past1, o, now);
    assert SeenSince(s, past, o.student, now) == SeenSince(s1, past1, o.student, now);
    if o.student !in s.tracks {
      var n: nat :| s1.nextId < n <= s2.nextId && d.trackId == TrackId(name, n);
      assert s.nextId < n;
    }
  }

  lemma FollowsOn(name: string, s: LiveSession, past: map<nat, Past>, s1: LiveSession, past1: map<nat, Past>,
                  s2: LiveSession, past2: map<nat, Past>, d: Decision, o: Observation, now: int)
    requires s.tracks.Keys == past.Keys && s1.tracks.Keys == past1.Keys && s2.tracks.Keys == past2.Keys
    requires SameTrack(s1, past1, s2, past2, o.student) && s1.nextId <= s2.nextId
    requires Follows(name, s, past, s1, past1, d, o, now)
    ensures Follows(name, s, past, s2, past2, d, o, now)
  {
    if o.student !in s.tracks {
      var n: nat :| s.nextId < n <= s1.nextId && d.trackId == TrackId(name, n);
      assert n <= s2.nextId;
    }
  }

  lemma OneFor(s: LiveSession, past: map<nat, Past>, s': LiveSession, past': map<nat, Past>, o: Observation)
    requires s.tracks.Keys == past.Keys && s'.tracks.Keys == past'.Keys && s.nextId <= s'.nextId
    requires forall k: nat :: k != o.student ==> SameTrack(s, past, s', past', k)
    ensures OthersSame(s, past, s', past', [o])
  {
    forall k: nat | NotSeen([o], k)
      ensures SameTrack(s, past, s', past', k)
    {
      assert [o][0] == o;
    }
  }

  lemma OneObservation(name: string, s: LiveSession, past: map<nat, Past>, o: Observation, now: int,
                       s': LiveSession, past': map<nat, Past>, d: Decision)
    requires ValidSession(name, s, past)
    requires (s', d) == ObserveOne(name, s, o, now) && past' == PastAfter(name, s, past, o, now)
    ensures ValidSession(name, s', past')
    ensures Follows(name, s, past, s', past', d, o, now) && OthersSame(s, past, s', past', [o])
  {
    ObserveOneValid(name, s, past, o, now);
    OneFollows(name, s, past, o, now);
    OneMoves(name, s, o, now);
    forall k: nat | k != o.student
      ensures SameTrack(s, past, s', past', k)
    {
      OthersStay(name, s, past, o, now, k);
    }
    OneFor(s, past, s', past', o);
  }

  lemma OthersSameNext(s: LiveSession, past: map<nat, Past>, s1: LiveSession, past1: map<nat, Past>,
                       s2: LiveSession, past2: map<nat, Past>, before: seq<Observation>, o: Observation)
    requires s.tracks.Keys == past.Keys && s1.tracks.Keys == past1.Keys && s2.tracks.Keys == past2.Keys
    requires OthersSame(s, past, s1, past1, before) && OthersSame(s1, past1, s2, past2, [o])
    ensures OthersSame(s, past, s2, past2, before + [o])
  {
    forall k: nat | NotSeen(before + [o], k)
      ensures SameTrack(s, past, s2, past2, k)
    {
      assert (before + [o])[|before|] == o;
      assert forall i: nat :: i < |before| ==> (before + [o])[i] == before[i];
      assert NotSeen(before, k) && NotSeen([o], k);
    }
  }

  lemma AllFollowNext(name: string, s: LiveSession, past: map<nat, Past>, s1: LiveSession, past1: map<nat, Past>,
                      s2: LiveSession, past2: map<nat, Past>, ds: seq<Decision>, before: seq<Observation>,
                      d: Decision, o: Observation, now: int)
    requires s.tracks.Keys == past.Keys && s1.tracks.Keys == past1.Keys && s2.tracks.Keys == past2.Keys
    requires AllFollow(name, s, past, s1, past1, ds, before, now) && NotSeen(before, o.student)
    requires OthersSame(s, past, s1, past1, before) && OthersSame(s1, past1, s2, past2, [o])
    requires Follows(name, s1, past1, s2, past2, d, o, now)
    ensures AllFollow(name, s, past, s2, past2, ds + [d], before + [o], now)
  {
    assert SameTrack(s, past, s1, past1, o.student);
    FollowsFrom(name, s, past, s1, past1, s2, past2, d, o, now);
    forall i: nat | i < |before|
      ensures Follows(name, s, past, s2, past2, ds[i], before[i], now)
    {
      assert NotSeen([o], before[i].student);
      FollowsOn(name, s, past, s1, past1, s2, past2, ds[i], before[i], now);
    }
  }

  ghost predicate Distinct(os: seq<Observation>) {
    forall i: nat, j: nat :: i < j < |os| ==> os[i].student != os[j].student
  }

  ghost predicate Decides(name: string, s: LiveSession, past: map<nat, Past>, s1: LiveSession, past1: map<nat, Past>,
                        ds: seq<Decision>, os: seq<Observation>, now: int) {
    && s.tracks.Keys == past.Keys && ValidSession(name, s1, past1)
    && (Distinct(os) ==> OthersSame(s, past, s1, past1, os) && AllFollow(name, s, past, s1, past1, ds, os, now))
  }

  // One observation, from one state of session and histories to the next.
  ghost predicate IsObserved(name: string, now: int, s: LiveSession, past: map<nat, Past>, o: Observation,
                             s': LiveSession, past': map<nat, Past>, d: Decision) {
    (s', d) == ObserveOne(name, s, o, now) && past' == PastAfter(name, s, past, o, now)
  }

  lemma DecidesNext(name: string, s: LiveSession, past: map<nat, Past>, s1: LiveSession, past1: map<nat, Past>,
                    ds: seq<Decision>, before: seq<Observation>, o: Observation, now: int,
                    s2: LiveSession, past2: map<nat, Past>, d: Decision)
    requires Decides(name, s, past, s1, past1, ds, before, now)
    requires IsObserved(name, now, s1, past1, o, s2, past2, d)
    ensures Decides(name, s, past, s2, past2, ds + [d], before + [o], now)
  {
    OneObservation(name, s1, past1, o, now, s2, past2, d);
    if Distinct(before + [o]) {
      DistinctNext(before, o);
      OthersSameNext(s, past, s1, past1, s2, past2, before, o);
      AllFollowNext(name, s, past, s1, past1, s2, past2, ds, before, d, o, now);
    }
  }

  lemma DistinctNext(before: seq<Observation>, o: Observation)
    requires Distinct(before + [o])
    ensures Distinct(before) && NotSeen(before, o.student)
  {
    var os := before + [o];
    assert os[|before|] == o && forall i: nat :: i < |before| ==> os[i] == before[i];
  }

  // ---- One observation after another ----

  datatype Frame = Frame(session: LiveSession, past: map<nat, Past>, decisions: seq<Decision>)

  ghost function FrameNext(name: string, now: int, x: Frame, o: Observation): Frame {
    var (s', d) := ObserveOne(name, x.session, o, now);
    Frame(s', PastAfter(name, x.session, x.past, o, now), x.decisions + [d])
  }

  ghost function FrameAfter(name: string, s: LiveSession, past: map<nat, Past>, os: seq<Observation>, now: int): Frame {
    Frame(ObserveAll(name, s, os, now).0, PastAll(name, s, past, os, now), ObserveAll(name, s, os, now).1)
  }

  lemma {:induction false} FrameIsFold(name: string, s: LiveSession, past: map<nat, Past>, os: seq<Observation>,
                                       now: int, next: (Frame, Observation) -> Frame)
    requires forall x: Frame, o: Observation :: next(x, o) == FrameNext(name, now, x, o)
    ensures FrameAfter(name, s, past, os, now) == Fold(next, Frame(s, past, []), os)
  {
    if os != [] {
      FrameIsFold(name, s, past, os[..|os| - 1], now, next);
    }
  }

  // Every observation of a frame is decided, and the other tracks stay.
  lemma ObservationsFollow(name: string, s: LiveSession, past: map<nat, Past>, os: seq<Observation>, now: int)
    requires ValidSession(name, s, past)
    ensures Decides(name, s, past, ObserveAll(name, s, os, now).0, PastAll(name, s, past, os, now),
                    ObserveAll(name, s, os, now).1, os, now)
  {
    var inv := (x: Frame, before: seq<Observation>) =>
      Decides(name, s, past, x.session, x.past, x.decisions, before, now);
    var next := (x: Frame, o: Observation) => FrameNext(name, now, x, o);
    forall x: Frame, before: seq<Observation>, o: Observation | inv(x, before)
      ensures inv(next(x, o), before + [o])
    {
      DecidesNext(name, s, past, x.session, x.past, x.decisions, before, o, now, next(x, o).session, next(x, o).past,
                  ObserveOne(name, x.session, o, now).1);
    }
    FoldInduction(inv, next, Frame(s, past, []), os);
    FrameIsFold(name, s, past, os, now, next);
  }

  // ---- The theorems ----

  // A live track is rejected or verified exactly if the scores of its complete
  // history look fake or live where they first settle the matter.
  lemma TrackVerdictIff(name: string, s: LiveSession, past: map<nat, Past>, k: nat)
    requires ValidSession(name, s, past) && k in s.tracks
    ensures s.tracks[k].rejected <==> FoundFake(Scores(past[k].seen))
    ensures s.tracks[k].verified <==> FoundLive(Scores(past[k].seen))
    ensures !(s.tracks[k].verified && s.tracks[k].rejected)
  {
    SessionRemembers(name, s, past);
    assert Scores(past[k].seen) == LiveScores(past[k].seen);
    VerdictIff(Scores(past[k].seen));
  }

  // Seen during the last three seconds.
  ghost predicate Recent(p: Past, now: int) {
    p.seen != [] && now - p.seen[|p.seen| - 1].at <= 3000
  }

  ghost function RecentPast(past: map<nat, Past>, now: int): map<nat, Past> {
    map k | k in past && Recent(past[k], now) :: past[k]
  }

  ghost function RecentSession(s: LiveSession, past: map<nat, Past>, now: int): LiveSession {
    s.(tracks := map k | k in s.tracks && k in past && Recent(past[k], now) :: s.tracks[k])
  }

  lemma RecentIff(name: string, s: LiveSession, past: map<nat, Past>, now: int, k: nat)
    requires ValidSession(name, s, past) && k in past
    ensures Recent(past[k], now) <==> now - s.tracks[k].lastSeen <= 3000
  {
    assert ValidEntry(name, s.tracks[k], k, past[k], s.nextId);
    EntryRemembers(name, s.tracks[k], k, past[k], s.nextId);
  }

  lemma UnexpiredIsRecent(s: LiveSession, past: map<nat, Past>, now: int)
    requires s.tracks.Keys == past.Keys
    requires forall k :: k in past ==> (Recent(past[k], now) <==> now - s.tracks[k].lastSeen <= 3000)
    ensures s.(tracks := Unexpired(s.tracks, now)) == RecentSession(s, past, now)
    ensures (map k | k in past && k in Unexpired(s.tracks, now) :: past[k]) == RecentPast(past, now)
  {
    assert Unexpired(s.tracks, now) == RecentSession(s, past, now).tracks;
  }

  // A frame drops the tracks not seen for more than three seconds, decides every
  // observation on what is left of its student, and leaves the other tracks alone.
  lemma FrameDecides(name: string, s: LiveSession, past: map<nat, Past>, os: seq<Observation>, now: int)
    requires ValidSession(name, s, past) && Distinct(os)
    ensures Decides(name, RecentSession(s, past, now), RecentPast(past, now), ObserveSession(name, s, os, now).0,
                  PastSession(name, s, past, os, now), ObserveSession(name, s, os, now).1, os, now)
  {
    forall k | k in past
      ensures Recent(past[k], now) <==> now - s.tracks[k].lastSeen <= 3000
    {
      RecentIff(name, s, past, now, k);
    }
    UnexpiredIsRecent(s, past, now);
    UnexpiredValid(name, s, past, now);
    ObservationsFollow(name, RecentSession(s, past, now), RecentPast(past, now), os, now);
  }
}
