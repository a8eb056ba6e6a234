// The liveness voting tracker (internal/web/recognition_track.go). Scores are
// real numbers: floating-point rounding of sums and averages is abstracted.
// Times are milliseconds.
module Liveness {
  import opened TrackNames

  const TRACK_TTL: int := 3000
  const FAST_FRAMES: nat := 3
  const MIN_FRAMES: nat := 4
  const MAX_FRAMES: nat := 6
  const FRAME_THRESHOLD: real := 0.60
  const FAST_PASS_THRESHOLD: real := 0.80
  const PASS_THRESHOLD: real := 0.68
  const SPOOF_THRESHOLD: real := 0.40
  const DECISION_TIMEOUT: int := 2000

  datatype Observation = Observation(student: nat, similarity: real, liveScore: real)

  datatype LiveTrack = LiveTrack(
    id: string, student: nat, firstSeen: int, lastSeen: int, frames: nat, scores: seq<real>,
    similaritySum: real, verified: bool, rejected: bool, committed: bool)

  datatype Status = Checking | Rechecking | Passed | Spoof | TimedOutStatus

  datatype Decision = Decision(
    trackId: string, frames: nat, requiredFrames: nat, liveScore: real, similarity: real,
    verified: bool, rejected: bool, timedOut: bool, needsAttendance: bool, status: Status)

  datatype LiveSession = LiveSession(tracks: map<nat, LiveTrack>, nextId: nat)

  // ---- Scores ----

  function Sum(s: seq<real>): real {
    if s == [] then 0.0 else Sum(s[..|s| - 1]) + s[|s| - 1]
  }

  function Average(s: seq<real>): real {
    if s == [] then 0.0 else Sum(s) / |s| as real
  }

  function LiveVotes(s: seq<real>): (n: nat)
    ensures n <= |s|
  {
    if s == [] then 0
    else LiveVotes(s[..|s| - 1]) + if s[|s| - 1] >= FRAME_THRESHOLD then 1 else 0
  }

  function SpoofVotes(s: seq<real>): (n: nat)
    ensures n <= |s|
  {
    if s == [] then 0
    else SpoofVotes(s[..|s| - 1]) + if s[|s| - 1] < SPOOF_THRESHOLD then 1 else 0
  }

  datatype Verdict = Undecided | Live | Fake

  // The voting rule on one window of scores.
  function Judge(s: seq<real>): Verdict {
    if |s| >= 3 && Average(s) < SPOOF_THRESHOLD && SpoofVotes(s) >= 2 then Fake
    else if |s| >= FAST_FRAMES && Average(s) >= FAST_PASS_THRESHOLD && LiveVotes(s) == |s| then Live
    else if |s| >= MIN_FRAMES && Average(s) >= PASS_THRESHOLD && LiveVotes(s) >= MIN_FRAMES - 1 then Live
    else Undecided
  }

  // The reference verdict: the first time the rule decides on the complete,
  // untrimmed history of scores.
  function VerdictOf(history: seq<real>): Verdict {
    if history == [] then Undecided
    else
      var earlier := VerdictOf(history[..|history| - 1]);
      if earlier != Undecided then earlier else Judge(history)
  }

  function LastSix(s: seq<real>): seq<real> {
    if |s| > MAX_FRAMES then s[|s| - MAX_FRAMES..] else s
  }

  // ---- One observation of one track ----

  function NewTrack(id: string, student: nat, now: int): LiveTrack {
    LiveTrack(id, student, now, now, 0, [], 0.0, false, false, false)
  }

  // The track after an observation, and whether it timed out.
  function StepTrack(t: LiveTrack, o: Observation, now: int): (LiveTrack, bool) {
    var scores := LastSix(t.scores + [o.liveScore]);
    var u := t.(lastSeen := now, frames := t.frames + 1, scores := scores,
                similaritySum := t.similaritySum + o.similarity);
    if t.verified || t.rejected then (u, false)
    else
      match Judge(scores)
      case Fake => (u.(rejected := true), false)
      case Live => (u.(verified := true), false)
      case Undecided => (u, now - t.firstSeen >= DECISION_TIMEOUT || |scores| >= MAX_FRAMES)
  }

  function DecisionOf(t: LiveTrack, timedOut: bool): Decision
    requires t.frames > 0
  {
    var open := !t.verified && !t.rejected && !timedOut;
    Decision(
      t.id, |t.scores|,
      if open && |t.scores| >= MIN_FRAMES then MAX_FRAMES
      else if open && |t.scores| >= FAST_FRAMES then MIN_FRAMES
      else FAST_FRAMES,
      Average(t.scores), t.similaritySum / t.frames as real,
      t.verified, t.rejected, timedOut, t.verified && !t.committed,
      if t.verified then Passed else if t.rejected then Spoof else if timedOut then TimedOutStatus
      else if |t.scores| >= FAST_FRAMES then Rechecking else Checking)
  }

  // ---- One session ----

  function Unexpired(tracks: map<nat, LiveTrack>, now: int): map<nat, LiveTrack> {
    map s | s in tracks && now - tracks[s].lastSeen <= TRACK_TTL :: tracks[s]
  }

  function TrackFor(name: string, s: LiveSession, student: nat, now: int): LiveTrack {
    if student in s.tracks then s.tracks[student] else NewTrack(TrackId(name, s.nextId + 1), student, now)
  }

  function ObserveOne(name: string, s: LiveSession, o: Observation, now: int): (LiveSession, Decision) {
    var (t, timedOut) := StepTrack(TrackFor(name, s, o.student, now), o, now);
    (LiveSession(if timedOut then s.tracks - {o.student} else s.tracks[o.student := t],
                 if o.student in s.tracks then s.nextId else s.nextId + 1),
     DecisionOf(t, timedOut))
  }

  function ObserveAll(name: string, s: LiveSession, os: seq<Observation>, now: int): (r: (LiveSession, seq<Decision>))
    ensures |r.1| == |os|
  {
    if os == [] then (s, [])
    else
      var (s1, ds) := ObserveAll(name, s, os[..|os| - 1], now);
      var (s2, d) := ObserveOne(name, s1, os[|os| - 1], now);
      (s2, ds + [d])
  }

  function ObserveSession(name: string, s: LiveSession, os: seq<Observation>, now: int): (LiveSession, seq<Decision>) {
    ObserveAll(name, s.(tracks := Unexpired(s.tracks, now)), os, now)
  }

  function CommitSession(s: LiveSession, id: string): LiveSession {
    s.(tracks := map k | k in s.tracks :: if s.tracks[k].id == id then s.tracks[k].(committed := true) else s.tracks[k])
  }

  // ---- The complete history of a live track ----

  datatype Seen = Seen(observation: Observation, at: int)

  // Where a live track comes from: its number in the session, when it was
  // created, and every observation since.
  datatype Past = Past(number: nat, created: int, seen: seq<Seen>)

  // The track after all of its history, and whether it survived each step of it.
  function Replay(start: LiveTrack, seen: seq<Seen>): LiveTrack {
    if seen == [] then start
    else
      var last := seen[|seen| - 1];
      StepTrack(Replay(start, seen[..|seen| - 1]), last.observation, last.at).0
  }

  predicate Survived(start: LiveTrack, seen: seq<Seen>) {
    seen == [] ||
    (var last := seen[|seen| - 1];
     var before := seen[..|seen| - 1];
     Survived(start, before) && !StepTrack(Replay(start, before), last.observation, last.at).1)
  }

  function LiveScores(seen: seq<Seen>): seq<real> {
    seq(|seen|, i requires 0 <= i < |seen| => seen[i].observation.liveScore)
  }

  function Similarities(seen: seq<Seen>): seq<real> {
    seq(|seen|, i requires 0 <= i < |seen| => seen[i].observation.similarity)
  }

  // What a track remembers of the history: six scores at most, yet the verdict
  // on the whole of it, reached within six frames; an undecided track still
  // holds every score, and fewer than six.
  ghost predicate Remembers(t: LiveTrack, seen: seq<Seen>) {
    var h := LiveScores(seen);
    && t.frames == |seen|
    && t.scores == LastSix(h)
    && t.similaritySum == Sum(Similarities(seen))
    && (t.verified <==> VerdictOf(h) == Live)
    && (t.rejected <==> VerdictOf(h) == Fake)
    && (VerdictOf(h) == Undecided ==> |h| < MAX_FRAMES)
    && (|h| >= MAX_FRAMES ==> VerdictOf(h) == VerdictOf(h[..MAX_FRAMES]))
  }

  lemma {:induction false} VerdictLatches(h: seq<real>, n: nat)
    requires n <= |h| && VerdictOf(h[..n]) != Undecided
    ensures VerdictOf(h) == VerdictOf(h[..n])
    decreases |h|
  {
    if n == |h| {
      assert h[..n] == h;
    } else {
      assert h[..|h| - 1][..n] == h[..n];
      VerdictLatches(h[..|h| - 1], n);
    }
  }

  // The step on six remembered scores follows the verdict on the whole history.
  lemma StepFollowsHistory(t: LiveTrack, seen: seq<Seen>, x: Seen)
    requires Remembers(t, seen)
    ensures var (u, timedOut) := StepTrack(t, x.observation, x.at);
            && (timedOut ==> VerdictOf(LiveScores(seen + [x])) == Undecided)
            && (!timedOut ==> Remembers(u, seen + [x]))
  {
    var h, score := LiveScores(seen), x.observation.liveScore;
    SeenNext(seen, x);
    LastSixNext(h, score);
    VerdictNext(h, score);
  }

  lemma SeenNext(seen: seq<Seen>, x: Seen)
    ensures LiveScores(seen + [x]) == LiveScores(seen) + [x.observation.liveScore]
    ensures Sum(Similarities(seen + [x])) == Sum(Similarities(seen)) + x.observation.similarity
  {
    var m, m' := Similarities(seen), Similarities(seen + [x]);
    assert m' == m + [x.observation.similarity] && m'[..|m'| - 1] == m;
  }

  // Six remembered scores are as good as all of them.
  lemma LastSixNext(h: seq<real>, score: real)
    ensures LastSix(LastSix(h) + [score]) == LastSix(h + [score])
    ensures |h| < MAX_FRAMES ==> LastSix(h + [score]) == h + [score]
  {
  }

  lemma VerdictNext(h: seq<real>, score: real)
    ensures VerdictOf(h + [score]) == if VerdictOf(h) != Undecided then VerdictOf(h) else Judge(h + [score])
    ensures |h| >= MAX_FRAMES ==> (h + [score])[..MAX_FRAMES] == h[..MAX_FRAMES]
    ensures |h| + 1 == MAX_FRAMES ==> (h + [score])[..MAX_FRAMES] == h + [score]
  {
    assert (h + [score])[..|h|] == h;
  }

  // For every history a track can have lived through, its verdict is the verdict
  // on the complete history.
  lemma LiveTrackRemembers(id: string, student: nat, created: int, seen: seq<Seen>)
    requires Survived(NewTrack(id, student, created), seen)
    ensures Remembers(Replay(NewTrack(id, student, created), seen), seen)
  {
    forall t: LiveTrack, before: seq<Seen>, x: Seen | Remembers(t, before) && !StepTrack(t, x.observation, x.at).1
      ensures Remembers(StepTrack(t, x.observation, x.at).0, before + [x])
    {
      StepFollowsHistory(t, before, x);
    }
    ReplayInduction((t: LiveTrack, before: seq<Seen>) => Remembers(t, before), NewTrack(id, student, created), seen);
  }

  // What every step keeps that a track survives, its whole history keeps.
  lemma {:induction false} ReplayInduction(inv: (LiveTrack, seq<Seen>) -> bool, start: LiveTrack, seen: seq<Seen>)
    requires inv(start, []) && Survived(start, seen)
    requires forall t: LiveTrack, before: seq<Seen>, x: Seen ::
               inv(t, before) && !StepTrack(t, x.observation, x.at).1 ==>
                   inv(StepTrack(t, x.observation, x.at).0, before + [x])
    ensures inv(Replay(start, seen), seen)
  {
    if seen != [] {
      var before, last := seen[..|seen| - 1], seen[|seen| - 1];
      ReplayNext(start, seen);
      ReplayInduction(inv, start, before);
      assert before + [last] == seen;
    }
  }

  lemma ReplayNext(start: LiveTrack, seen: seq<Seen>)
    requires seen != [] && Survived(start, seen)
    ensures var before, last := seen[..|seen| - 1], seen[|seen| - 1];
            && Survived(start, before)
            && StepTrack(Replay(start, before), last.observation, last.at) == (Replay(start, seen), false)
  {
  }

  // What a live verdict rests on, at the frame that decided it.
  lemma {:induction false} LiveMeans(h: seq<real>)
    requires VerdictOf(h) == Live
    ensures exists n :: 3 <= n <= |h| && LiveVotes(h[..n]) >= 3 && Average(h[..n]) >= PASS_THRESHOLD
                        && VerdictOf(h[..n - 1]) == Undecided && VerdictOf(h[..n]) == Live
  {
    var h0 := h[..|h| - 1];
    if VerdictOf(h0) == Live {
      LiveMeans(h0);
      var n :| 3 <= n <= |h0| && LiveVotes(h0[..n]) >= 3 && Average(h0[..n]) >= PASS_THRESHOLD
               && VerdictOf(h0[..n - 1]) == Undecided && VerdictOf(h0[..n]) == Live;
      assert h0[..n] == h[..n] && h0[..n - 1] == h[..n - 1];
    } else {
      assert h[..|h|] == h && h[..|h| - 1] == h0;
    }
  }

  // ---- The session invariant ----

  ghost predicate ValidEntry(name: string, t: LiveTrack, student: nat, p: Past, nextId: nat) {
    var start := NewTrack(TrackId(name, p.number), student, p.created);
    && 1 <= p.number <= nextId && t.id == start.id && t.student == student
    && p.seen != [] && Survived(start, p.seen)
    && t.(committed := false) == Replay(start, p.seen)
  }

  ghost predicate DistinctNumbers(past: map<nat, Past>) {
    forall j, k :: j in past && k in past && past[j].number == past[k].number ==> j == k
  }

  ghost predicate ValidSession(name: string, s: LiveSession, past: map<nat, Past>) {
    && s.tracks.Keys == past.Keys
    && (forall k :: k in past ==> ValidEntry(name, s.tracks[k], k, past[k], s.nextId))
    && DistinctNumbers(past)
  }

  // The histories after an observation: it is appended to the history of its
  // student's track, which starts anew with a new track.
  ghost function PastAfter(name: string, s: LiveSession, past: map<nat, Past>, o: Observation, now: int): map<nat,
                           Past> {
    var before := if o.student in past then past[o.student] else Past(s.nextId + 1, now, []);
    if StepTrack(TrackFor(name, s, o.student, now), o, now).1 then past - {o.student}
    else past[o.student := before.(seen := before.seen + [Seen(o, now)])]
  }

  ghost function PastAll(name: string, s: LiveSession, past: map<nat, Past>, os: seq<Observation>,
                         now: int): map<nat, Past> {
    if os == [] then past
    else
      var before := os[..|os| - 1];
      PastAfter(name, ObserveAll(name, s, before, now).0, PastAll(name, s, past, before, now), os[|os| - 1], now)
  }

  // ... and after a frame: the histories of expired tracks are dropped first.
  ghost function PastSession(name: string, s: LiveSession, past: map<nat, Past>, os: seq<Observation>,
                             now: int): map<nat, Past> {
    var tracks := Unexpired(s.tracks, now);
    PastAll(name, s.(tracks := tracks), map k | k in past && k in tracks :: past[k], os, now)
  }

  // Every live track has the verdict of its complete history; an undecided one
  // holds every score, and fewer than six.
  lemma SessionRemembers(name: string, s: LiveSession, past: map<nat, Past>)
    requires ValidSession(name, s, past)
    ensures forall k :: k in s.tracks ==> Remembers(s.tracks[k], past[k].seen)
  {
    forall k | k in s.tracks
      ensures Remembers(s.tracks[k], past[k].seen)
    {
      assert ValidEntry(name, s.tracks[k], k, past[k], s.nextId);
      LiveTrackRemembers(TrackId(name, past[k].number), k, past[k].created, past[k].seen);
    }
  }

  lemma StepIgnoresCommitted(t: LiveTrack, o: Observation, now: int)
    ensures var (u, x) := StepTrack(t, o, now);
            StepTrack(t.(committed := false), o, now) == (u.(committed := false), x)
  {
  }

  lemma ObservedEntry(name: string, t: LiveTrack, student: nat, p: Past, o: Observation, now: int, nextId: nat)
    requires 1 <= p.number <= nextId && t.id == TrackId(name, p.number) && t.student == student
    requires var start := NewTrack(TrackId(name, p.number), student, p.created);
             Survived(start, p.seen) && t.(committed := false) == Replay(start, p.seen)
    requires !StepTrack(t, o, now).1
    ensures ValidEntry(name, StepTrack(t, o, now).0, student, p.(seen := p.seen + [Seen(o, now)]), nextId)
  {
    var seen := p.seen + [Seen(o, now)];
    assert seen[..|seen| - 1] == p.seen;
    StepIgnoresCommitted(t, o, now);
  }

  lemma EntryAfter(name: string, s: LiveSession, past: map<nat, Past>, o: Observation, now: int, k: nat)
    requires ValidSession(name, s, past) && k in PastAfter(name, s, past, o, now)
    ensures var s' := ObserveOne(name, s, o, now).0;
            k in s'.tracks && ValidEntry(name, s'.tracks[k], k, PastAfter(name, s, past, o, now)[k], s'.nextId)
  {
    assert k in past ==> ValidEntry(name, s.tracks[k], k, past[k], s.nextId);
    if k == o.student {
      var before := if k in past then past[k] else Past(s.nextId + 1, now, []);
      ObservedEntry(name, TrackFor(name, s, k, now), k, before, o, now, ObserveOne(name, s, o, now).0.nextId);
    }
  }

  lemma NumbersBelow(name: string, s: LiveSession, past: map<nat, Past>)
    requires ValidSession(name, s, past)
    ensures forall k :: k in past ==> past[k].number <= s.nextId
  {
    forall k | k in past
      ensures past[k].number <= s.nextId
    {
      assert ValidEntry(name, s.tracks[k], k, past[k], s.nextId);
    }
  }

  lemma NumbersAfter(name: string, s: LiveSession, past: map<nat, Past>, o: Observation, now: int)
    requires DistinctNumbers(past) && forall k :: k in past ==> past[k].number <= s.nextId
    ensures DistinctNumbers(PastAfter(name, s, past, o, now))
  {
  }

  lemma ObserveOneValid(name: string, s: LiveSession, past: map<nat, Past>, o: Observation, now: int)
    requires ValidSession(name, s, past)
    ensures ValidSession(name, ObserveOne(name, s, o, now).0, PastAfter(name, s, past, o, now))
  {
    NumbersBelow(name, s, past);
    NumbersAfter(name, s, past, o, now);
    forall k | k in PastAfter(name, s, past, o, now) {
      EntryAfter(name, s, past, o, now, k);
    }
  }

  lemma {:induction false} ObserveAllValid(name: string, s: LiveSession, past: map<nat, Past>, os: seq<Observation>,
                                           now: int)
    requires ValidSession(name, s, past)
    ensures ValidSession(name, ObserveAll(name, s, os, now).0, PastAll(name, s, past, os, now))
  {
    if os != [] {
      var before := os[..|os| - 1];
      ObserveAllValid(name, s, past, before, now);
      ObserveOneValid(name, ObserveAll(name, s, before, now).0, PastAll(name, s, past, before, now), os[|os| - 1], now);
    }
  }

  lemma ObserveSessionValid(name: string, s: LiveSession, past: map<nat, Past>, os: seq<Observation>, now: int)
    requires ValidSession(name, s, past)
    ensures ValidSession(name, ObserveSession(name, s, os, now).0, PastSession(name, s, past, os, now))
  {
    var tracks := Unexpired(s.tracks, now);
    UnexpiredValid(name, s, past, now);
    ObserveAllValid(name, s.(tracks := tracks), map k | k in past && k in tracks :: past[k], os, now);
  }

  lemma UnexpiredValid(name: string, s: LiveSession, past: map<nat, Past>, now: int)
    requires ValidSession(name, s, past)
    ensures var tracks := Unexpired(s.tracks, now);
            ValidSession(name, s.(tracks := tracks), map k | k in past && k in tracks :: past[k])
  {
  }

  // Ids tell tracks apart, so committing by id commits one track.
  lemma IdsDistinct(name: string, s: LiveSession, past: map<nat, Past>)
    requires ValidSession(name, s, past)
    ensures forall j, k :: j in s.tracks && k in s.tracks && s.tracks[j].id == s.tracks[k].id ==> j == k
  {
    forall j, k | j in s.tracks && k in s.tracks && s.tracks[j].id == s.tracks[k].id
      ensures j == k
    {
      assert ValidEntry(name, s.tracks[j], j, past[j], s.nextId);
      assert ValidEntry(name, s.tracks[k], k, past[k], s.nextId);
      TrackIdInjective(name, past[j].number, name, past[k].number);
    }
  }

  lemma CommitValid(name: string, s: LiveSession, past: map<nat, Past>, id: string)
    requires ValidSession(name, s, past)
    ensures ValidSession(name, CommitSession(s, id), past)
  {
    forall k | k in past
      ensures ValidEntry(name, CommitSession(s, id).tracks[k], k, past[k], s.nextId)
    {
      assert ValidEntry(name, s.tracks[k], k, past[k], s.nextId);
    }
  }

  lemma ObserveAllNext(name: string, s: LiveSession, os: seq<Observation>, now: int, i: nat)
    requires i < |os|
    ensures var (before, ds) := ObserveAll(name, s, os[..i], now);
            var (after, d) := ObserveOne(name, before, os[i], now);
            ObserveAll(name, s, os[..i + 1], now) == (after, ds + [d])
  {
    assert os[..i + 1][..i] == os[..i];
  }

  // ---- The tracker ----

  class RecognitionTracker {
    var sessions: map<string, LiveSession>
    ghost var past: map<string, map<nat, Past>>

    // Every live track's verdict is the verdict on its complete history.
    ghost predicate Valid()
      reads this
    {
      && sessions.Keys == past.Keys
      && forall name :: name in sessions ==> ValidSession(name, sessions[name], past[name])
    }

    constructor ()
      ensures Valid() && sessions == map[]
    {
      sessions, past := map[], map[];
    }

    method Observe(sessionId: string, observations: seq<Observation>, now: int) returns (out: seq<Decision>)
      requires Valid()
      modifies this
      ensures Valid()
      ensures var name := SessionKey(sessionId);
              var s := if name in old(sessions) then old(sessions)[name] else LiveSession(map[], 0);
              var (s', ds) := ObserveSession(name, s, observations, now);
              sessions == old(sessions)[name := s'] && out == ds
      ensures var name := SessionKey(sessionId);
              var known := name in old(sessions);
              past == old(past)[name := PastSession(name, if known then old(sessions)[name] else LiveSession(map[], 0),
                                                    if known then old(past)[name] else map[], observations, now)]
    {
      var name := if sessionId == "" then "default" else sessionId;
      var session := if name in sessions then sessions[name] else LiveSession(map[], 0);
      ghost var history: map<nat, Past> := if name in past then past[name] else map[];
      ObserveSessionValid(name, session, history, observations, now);
      past := past[name := PastSession(name, session, history, observations, now)];
      session, out := ObserveFrame(name, session, observations, now);
      sessions := sessions[name := session];
    }

    static method ObserveFrame(name: string, session: LiveSession, observations: seq<Observation>, now: int)
      returns (after: LiveSession, out: seq<Decision>)
      ensures (after, out) == ObserveSession(name, session, observations, now)
    {
      var tracks := DropExpired(session.tracks, now);
      after := session.(tracks := tracks);
      ghost var start := after;
      out := [];
      for i := 0 to |observations|
        invariant (after, out) == ObserveAll(name, start, observations[..i], now)
      {
        ObserveAllNext(name, start, observations, now, i);
        var decision;
        after, decision := ObserveNext(name, after, observations[i], now);
        out := out + [decision];
      }
      assert observations[..|observations|] == observations;
    }

    // The body of the loop over observations.
    static method ObserveNext(name: string, session: LiveSession, observation: Observation, now: int)
      returns (after: LiveSession, decision: Decision)
      ensures (after, decision) == ObserveOne(name, session, observation, now)
    {
      var track, nextId;
      if observation.student in session.tracks {
        nextId, track := session.nextId, session.tracks[observation.student];
      } else {
        nextId := session.nextId + 1;
        track := NewTrack(TrackId(name, nextId), observation.student, now);
      }
      track, decision := Update(track, observation, now);
      var tracks := session.tracks[observation.student := track];
      if decision.timedOut {
        tracks := tracks - {observation.student};
        assert tracks == session.tracks - {observation.student};
      }
      after := LiveSession(tracks, nextId);
    }

    static method DropExpired(tracks: map<nat, LiveTrack>, now: int) returns (left: map<nat, LiveTrack>)
      ensures left == Unexpired(tracks, now)
    {
      left := tracks;
      var todo := tracks.Keys;
      while todo != {}
        invariant todo <= tracks.Keys
        invariant forall k :: k in left <==> k in tracks && (k in todo || now - tracks[k].lastSeen <= TRACK_TTL)
        invariant forall k :: k in left ==> left[k] == tracks[k]
        decreases todo
      {
        var id :| id in todo;
        if now - tracks[id].lastSeen > TRACK_TTL {
          left := left - {id};
        }
        todo := todo - {id};
      }
    }

    static method Votes(scores: seq<real>) returns (average: real, live: nat, spoof: nat)
      ensures average == Average(scores) && live == LiveVotes(scores) && spoof == SpoofVotes(scores)
    {
      var sum := 0.0;
      live, spoof := 0, 0;
      for i := 0 to |scores|
        invariant sum == Sum(scores[..i]) && live == LiveVotes(scores[..i]) && spoof == SpoofVotes(scores[..i])
      {
        assert scores[..i + 1][..i] == scores[..i];
        sum := sum + scores[i];
        if scores[i] >= FRAME_THRESHOLD {
          live := live + 1;
        }
        if scores[i] < SPOOF_THRESHOLD {
          spoof := spoof + 1;
        }
      }
      assert scores[..|scores|] == scores;
      average := if |scores| == 0 then 0.0 else sum / |scores| as real;
    }

    // The first three cases of the switch.
    static method Vote(scores: seq<real>) returns (average: real, verdict: Verdict)
      ensures average == Average(scores) && verdict == Judge(scores)
    {
      var liveVotes, spoofVotes;
      average, liveVotes, spoofVotes := Votes(scores);
      if |scores| >= 3 && average < SPOOF_THRESHOLD && spoofVotes >= 2 {
        verdict := Fake;
      } else if |scores| >= FAST_FRAMES && average >= FAST_PASS_THRESHOLD && liveVotes == |scores| {
        verdict := Live;
      } else if |scores| >= MIN_FRAMES && average >= PASS_THRESHOLD && liveVotes >= MIN_FRAMES - 1 {
        verdict := Live;
      } else {
        verdict := Undecided;
      }
    }

    // The body of the loop over observations, on the track it belongs to.
    static method Update(track: LiveTrack, observation: Observation, now: int)
      returns (updated: LiveTrack, decision: Decision)
      ensures updated.frames > 0
      ensures (updated, decision.timedOut) == StepTrack(track, observation, now)
      ensures decision == DecisionOf(updated, decision.timedOut)
    {
      var scores := track.scores + [observation.liveScore];
      if |scores| > MAX_FRAMES {
        scores := scores[|scores| - MAX_FRAMES..];
      }
      updated := track.(lastSeen := now, frames := track.frames + 1, scores := scores,
                        similaritySum := track.similaritySum + observation.similarity);
      var average, verdict := Vote(scores);
      var timedOut := false;
      if !updated.verified && !updated.rejected {
        if verdict.Fake? {
          updated := updated.(rejected := true);
        } else if verdict.Live? {
          updated := updated.(verified := true);
        } else if now - updated.firstSeen >= DECISION_TIMEOUT || |scores| >= MAX_FRAMES {
          timedOut := true;
        }
      }
      decision := Report(updated, timedOut, average);
    }

    static method Report(track: LiveTrack, timedOut: bool, average: real) returns (decision: Decision)
      requires track.frames > 0 && average == Average(track.scores)
      ensures decision == DecisionOf(track, timedOut)
    {
      var requiredFrames := FAST_FRAMES;
      if !track.verified && !track.rejected && !timedOut && |track.scores| >= FAST_FRAMES {
        requiredFrames := MIN_FRAMES;
      }
      if !track.verified && !track.rejected && !timedOut && |track.scores| >= MIN_FRAMES {
        requiredFrames := MAX_FRAMES;
      }
      var status := Checking;
      if track.verified {
        status := Passed;
      } else if track.rejected {
        status := Spoof;
      } else if timedOut {
        status := TimedOutStatus;
      } else if |track.scores| >= FAST_FRAMES {
        status := Rechecking;
      }
      decision := Decision(track.id, |track.scores|, requiredFrames, average,
                           track.similaritySum / track.frames as real,
                           track.verified, track.rejected, timedOut,
                           track.verified && !track.committed, status);
    }

    // Commit looks the session up by the id as given: the empty id names no
    // session, although Observe files it under "default".
    method Commit(sessionId: string, trackId: string)
      requires Valid()
      modifies this`sessions
      ensures Valid()
      ensures sessions == if sessionId in old(sessions)
                          then old(sessions)[sessionId := CommitSession(old(sessions)[sessionId], trackId)]
                          else old(sessions)
      ensures sessions.Keys == old(sessions).Keys
      ensures forall name :: name in sessions && name != sessionId ==> sessions[name] == old(sessions)[name]
      ensures sessionId in sessions ==>
                && sessions[sessionId].nextId == old(sessions)[sessionId].nextId
                && sessions[sessionId].tracks.Keys == old(sessions)[sessionId].tracks.Keys
                && forall k :: k in sessions[sessionId].tracks ==>
                     var t := old(sessions)[sessionId].tracks[k];
                     sessions[sessionId].tracks[k] == t.(committed := t.committed || t.id == trackId)
    {
      if sessionId !in sessions {
        return;
      }
      var session := sessions[sessionId];
      IdsDistinct(sessionId, session, past[sessionId]);
      CommitValid(sessionId, session, past[sessionId], trackId);
      session := MarkCommitted(session, trackId);
      sessions := sessions[sessionId := session];
    }

    // The loop over the tracks: the first one with the id is marked.
    static method MarkCommitted(session: LiveSession, trackId: string) returns (after: LiveSession)
      requires forall j, k ::
                 (j in session.tracks && k in session.tracks && session.tracks[j].id == session.tracks[k].id) ==> j == k
      ensures after == CommitSession(session, trackId)
    {
      var todo := session.tracks.Keys;
      while todo != {}
        invariant todo <= session.tracks.Keys
        invariant forall k :: k in session.tracks && k !in todo ==> session.tracks[k].id != trackId
        decreases todo
      {
        var k :| k in todo;
        if session.tracks[k].id == trackId {
          return session.(tracks := session.tracks[k := session.tracks[k].(committed := true)]);
        }
        todo := todo - {k};
      }
      return session;
    }
  }
}
