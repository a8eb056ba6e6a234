// The person tracker (internal/web/person_track.go). The association score is
// any real function of two rectangles; times are milliseconds.
module PersonTrack {
  import opened Prelude
  import opened Geometry
  import opened Sorting
  import opened Greedy
  import opened TrackNames

  const TRACK_TTL: int := 2000
  const MIN_QUALITY: real := 0.45
  const BEST_IMPROVEMENT: real := 0.04
  const IDENTITY_IMPROVEMENT: real := 0.08
  const SIMILARITY_IMPROVEMENT: real := 0.03
  const UNKNOWN_RETRY: int := 600
  const MIN_ASSOCIATION: real := 0.20
  const CURRENT_WEIGHT: real := 0.68

  datatype PersonDetection = PersonDetection(rectangle: Rect, score: real)

  datatype Track = Track(
    id: string, rectangle: Rect, score: real, firstSeen: int, lastSeen: int,
    bestQuality: real, lastFeatureAt: Option<int>, student: Option<nat>, similarity: real)

  datatype Session = Session(tracks: map<string, Track>, nextId: nat)

  datatype Seen = Seen(
    trackId: string, rectangle: Rect, score: real, bestQuality: real, student: Option<nat>, similarity: real)

  // ---- Blending rectangles ----

  // math.Round: half away from zero.
  function Round(x: real): int {
    if x >= 0.0 then (x + 0.5).Floor else -((-x + 0.5).Floor)
  }

  function Mix(previous: int, current: int, weight: real): real {
    Weighted(previous as real, current as real, 1.0 - weight, weight)
  }

  // image.Rect swaps coordinates that are out of order.
  function MakeRect(x0: int, y0: int, x1: int, y1: int): Rect {
    Rect(Min(x0, x1), Min(y0, y1), Max(x0, x1), Max(y0, y1))
  }

  function Blend(previous: Rect, current: Rect, weight: real): Rect {
    if previous.Empty() || weight <= 0.0 || weight >= 1.0 then current
    else MakeRect(
      Round(Mix(previous.minX, current.minX, weight)), Round(Mix(previous.minY, current.minY, weight)),
      Round(Mix(previous.maxX, current.maxX, weight)), Round(Mix(previous.maxY, current.maxY, weight)))
  }

  // The weighted sum with the weights of both coordinates.
  function Weighted(x: real, y: real, k: real, weight: real): real {
    x * k + y * weight
  }

  lemma Scaled(x: real, y: real, k: real)
    requires x <= y && k >= 0.0
    ensures x * k <= y * k
  {
    assert (y - x) * k >= 0.0;
  }

  lemma WeightedMonotone(x: real, y: real, u: real, v: real, k: real, weight: real)
    requires x <= u && y <= v && k >= 0.0 && weight >= 0.0
    ensures Weighted(x, y, k, weight) <= Weighted(u, v, k, weight)
  {
    Scaled(x, u, k);
    Scaled(y, v, weight);
  }

  lemma WeightedShift(x: real, y: real, shift: real, k: real, weight: real)
    requires k + weight == 1.0
    ensures Weighted(x + shift, y + shift, k, weight) == Weighted(x, y, k, weight) + shift
  {
    assert shift * k + shift * weight == shift * (k + weight);
    assert (x + shift) * k == x * k + shift * k && (y + shift) * weight == y * weight + shift * weight;
  }

  lemma MixBetween(a: int, b: int, weight: real)
    requires 0.0 < weight < 1.0
    ensures Min(a, b) as real <= Mix(a, b, weight) <= Max(a, b) as real
  {
    var x, y, lo, hi, k := a as real, b as real, Min(a, b) as real, Max(a, b) as real, 1.0 - weight;
    WeightedMonotone(lo, lo, x, y, k, weight);
    WeightedMonotone(x, y, hi, hi, k, weight);
    WeightedShift(0.0, 0.0, lo, k, weight);
    WeightedShift(0.0, 0.0, hi, k, weight);
  }

  lemma MixSpreads(a: int, b: int, c: int, d: int, weight: real)
    requires a < c && b < d && 0.0 < weight < 1.0
    ensures Mix(a, b, weight) + 1.0 <= Mix(c, d, weight)
  {
    WeightedShift(a as real, b as real, 1.0, 1.0 - weight, weight);
    WeightedMonotone(a as real + 1.0, b as real + 1.0, c as real, d as real, 1.0 - weight, weight);
  }

  lemma RoundSpreads(x: real, y: real)
    requires x + 1.0 <= y
    ensures Round(x) < Round(y)
  {
  }

  lemma RoundBetween(lo: int, x: real, hi: int)
    requires lo as real <= x <= hi as real
    ensures lo <= Round(x) <= hi
  {
  }

  // Blending two rectangles that are not empty gives one that is not empty, with
  // every edge between the two it comes from.
  lemma BlendStaysBetween(p: Rect, c: Rect, weight: real)
    requires !p.Empty() && !c.Empty() && 0.0 < weight < 1.0
    ensures var r := Blend(p, c, weight);
            && !r.Empty()
            && Min(p.minX, c.minX) <= r.minX <= Max(p.minX, c.minX)
            && Min(p.minY, c.minY) <= r.minY <= Max(p.minY, c.minY)
            && Min(p.maxX, c.maxX) <= r.maxX <= Max(p.maxX, c.maxX)
            && Min(p.maxY, c.maxY) <= r.maxY <= Max(p.maxY, c.maxY)
  {
    EdgesBetween(p.minX, c.minX, p.maxX, c.maxX, weight);
    EdgesBetween(p.minY, c.minY, p.maxY, c.maxY, weight);
  }

  lemma EdgesBetween(a: int, b: int, c: int, d: int, weight: real)
    requires a < c && b < d && 0.0 < weight < 1.0
    ensures var lo, hi := Round(Mix(a, b, weight)), Round(Mix(c, d, weight));
            lo < hi && Min(a, b) <= lo <= Max(a, b) && Min(c, d) <= hi <= Max(c, d)
  {
    MixBetween(a, b, weight);
    MixBetween(c, d, weight);
    RoundBetween(Min(a, b), Mix(a, b, weight), Max(a, b));
    RoundBetween(Min(c, d), Mix(c, d, weight), Max(c, d));
    MixSpreads(a, b, c, d, weight);
    RoundSpreads(Mix(a, b, weight), Mix(c, d, weight));
  }

  // ---- Recording features ----

  function NeedsFeature(track: Track, quality: real, now: int): bool {
    if track.lastFeatureAt.None? then true
    else if track.student.None? then
      quality >= track.bestQuality + BEST_IMPROVEMENT || now - track.lastFeatureAt.value >= UNKNOWN_RETRY
    else quality >= track.bestQuality + BEST_IMPROVEMENT
  }

  datatype Record = Record(quality: real, student: Option<nat>, similarity: real, at: int)

  predicate KeepsIdentity(track: Track, r: Record) {
    r.student.None? ||
    (track.student.Some? && track.student != r.student
     && (r.quality < track.bestQuality + IDENTITY_IMPROVEMENT
         || r.similarity < track.similarity + SIMILARITY_IMPROVEMENT))
  }

  function RecordStep(track: Track, r: Record): Track {
    var t := track.(lastFeatureAt := Some(r.at),
                    bestQuality := if r.quality > track.bestQuality then r.quality else track.bestQuality);
    if KeepsIdentity(track, r) then t else t.(student := r.student, similarity := r.similarity)
  }

  function RunRecords(track: Track, rs: seq<Record>): Track {
    if rs == [] then track else RecordStep(RunRecords(track, rs[..|rs| - 1]), rs[|rs| - 1])
  }

  // How often a run replaces one identity by another.
  function IdentityChanges(track: Track, rs: seq<Record>): nat {
    if rs == [] then 0
    else
      var before := RunRecords(track, rs[..|rs| - 1]);
      IdentityChanges(track, rs[..|rs| - 1]) +
      if before.student.Some? && RecordStep(before, rs[|rs| - 1]).student != before.student then 1 else 0
  }

  // The qualities the caller records: clamped to 1, and not below the gate.
  predicate RecordedQuality(q: real) {
    MIN_QUALITY <= q <= 1.0
  }

  lemma {:induction false} BestIsMaximum(track: Track, rs: seq<Record>)
    requires track.bestQuality == 0.0 && forall r :: r in rs ==> RecordedQuality(r.quality)
    ensures var best := RunRecords(track, rs).bestQuality;
            && (forall r :: r in rs ==> r.quality <= best)
            && (if rs == [] then best == 0.0 else exists r :: r in rs && r.quality == best)
  {
    if rs != [] {
      var before, last := rs[..|rs| - 1], rs[|rs| - 1];
      BestIsMaximum(track, before);
      assert last in rs;
    }
  }

  lemma {:induction false} ChangesCostQuality(track: Track, rs: seq<Record>)
    requires track.bestQuality == 0.0 && track.student.None?
    requires forall r :: r in rs ==> RecordedQuality(r.quality)
    ensures var t := RunRecords(track, rs);
            && t.bestQuality <= 1.0
            && (t.student.Some? ==>
                  t.bestQuality >= MIN_QUALITY + IDENTITY_IMPROVEMENT * IdentityChanges(track, rs) as real)
            && (t.student.None? ==> IdentityChanges(track, rs) == 0)
  {
    if rs != [] {
      ChangesCostQuality(track, rs[..|rs| - 1]);
      assert rs[|rs| - 1] in rs;
    }
  }

  // A track changes its identity at most six times in its life ...
  lemma AtMostSixChanges(track: Track, rs: seq<Record>)
    requires track.bestQuality == 0.0 && track.student.None?
    requires forall r :: r in rs ==> RecordedQuality(r.quality)
    ensures IdentityChanges(track, rs) <= 6
  {
    ChangesCostQuality(track, rs);
  }

  function Ladder(n: nat): seq<Record> {
    if n == 0 then []
    else Ladder(n - 1) + [Record(0.37 + 0.08 * n as real, Some(n), 0.5 + 0.03 * n as real, 1000 * n)]
  }

  lemma {:induction false} LadderClimbs(track: Track, n: nat)
    requires track.bestQuality == 0.0 && track.student.None?
    ensures var t := RunRecords(track, Ladder(n));
            && (n > 0 ==> t.student == Some(n) && t.bestQuality == 0.37 + 0.08 * n as real
                          && t.similarity == 0.5 + 0.03 * n as real)
            && (IdentityChanges(track, Ladder(n)) == (if n == 0 then 0 else n - 1))
            && (n == 0 ==> t == track)
  {
    if n > 0 {
      LadderClimbs(track, n - 1);
      assert Ladder(n)[..|Ladder(n)| - 1] == Ladder(n - 1);
    }
  }

  lemma {:induction false} LadderQuality(n: nat)
    requires n <= 7
    ensures forall r :: r in Ladder(n) ==> RecordedQuality(r.quality)
  {
    if n > 0 {
      LadderQuality(n - 1);
    }
  }

  // ... and can change it six times.
  lemma SixChangesHappen(track: Track)
    requires track.bestQuality == 0.0 && track.student.None?
    ensures exists rs: seq<Record> ::
              (forall r :: r in rs ==> RecordedQuality(r.quality)) && IdentityChanges(track, rs) == 6
  {
    LadderClimbs(track, 7);
    LadderQuality(7);
  }

  // Each record made because a feature was needed.
  predicate OnDemand(track: Track, rs: seq<Record>) {
    rs == [] ||
    (OnDemand(track, rs[..|rs| - 1])
     && NeedsFeature(RunRecords(track, rs[..|rs| - 1]), rs[|rs| - 1].quality, rs[|rs| - 1].at))
  }

  lemma {:induction false} DemandRaisesBest(track: Track, rs: seq<Record>)
    requires track.student.Some? && track.lastFeatureAt.Some? && OnDemand(track, rs)
    ensures var t := RunRecords(track, rs);
            && t.student.Some? && t.lastFeatureAt.Some?
            && t.bestQuality >= track.bestQuality + BEST_IMPROVEMENT * |rs| as real
  {
    if rs != [] {
      DemandRaisesBest(track, rs[..|rs| - 1]);
    }
  }

  lemma {:induction false} BestBounded(track: Track, rs: seq<Record>)
    requires track.bestQuality <= 1.0 && forall r :: r in rs ==> RecordedQuality(r.quality)
    ensures RunRecords(track, rs).bestQuality <= 1.0
  {
    if rs != [] {
      BestBounded(track, rs[..|rs| - 1]);
      assert rs[|rs| - 1] in rs;
    }
  }

  // Once identified, a track has at most 13 more features extracted.
  lemma FeatureBudget(track: Track, rs: seq<Record>)
    requires track.student.Some? && track.lastFeatureAt.Some? && RecordedQuality(track.bestQuality)
    requires OnDemand(track, rs) && forall r :: r in rs ==> RecordedQuality(r.quality)
    ensures |rs| <= 13
  {
    DemandRaisesBest(track, rs);
    BestBounded(track, rs);
  }

  // ---- Placing detections ----

  function NewTrack(id: string, now: int): Track {
    Track(id, Rect(0, 0, 0, 0), 0.0, now, now, 0.0, None, None, 0.0)
  }

  function Place(track: Track, d: PersonDetection, now: int): Track {
    track.(rectangle := if track.rectangle.Empty() then d.rectangle
                        else Blend(track.rectangle, d.rectangle, CURRENT_WEIGHT),
           score := d.score, lastSeen := now)
  }

  function SeenOf(t: Track): Seen {
    Seen(t.id, t.rectangle, t.score, t.bestQuality, t.student, t.similarity)
  }

  function Unexpired(tracks: map<string, Track>, now: int): map<string, Track> {
    map id | id in tracks && now - tracks[id].lastSeen <= TRACK_TTL :: tracks[id]
  }

  // One detection, with the id matched to it; the empty id names no track.
  function PlaceOne(name: string, s: Session, id: string, d: PersonDetection, now: int): (Session, Seen) {
    var nextId := if id in s.tracks then s.nextId else s.nextId + 1;
    var key := if id in s.tracks then id else PersonTrackId(name, nextId);
    var t := Place(if id in s.tracks then s.tracks[id] else NewTrack(key, now), d, now);
    (Session(s.tracks[key := t], nextId), SeenOf(t))
  }

  function MatchOf(matched: map<nat, string>, i: nat): string {
    if i in matched then matched[i] else ""
  }

  function PlaceAll(name: string, s: Session, matched: map<nat, string>, ds: seq<PersonDetection>,
                    now: int): (Session, seq<Seen>) {
    if ds == [] then (s, [])
    else
      var n := |ds| - 1;
      var (before, out) := PlaceAll(name, s, matched, ds[..n], now);
      var (after, seen) := PlaceOne(name, before, MatchOf(matched, n), ds[n], now);
      (after, out + [seen])
  }

  // An id handed out with a number above lo and up to hi.
  ghost predicate Numbered(name: string, id: string, lo: nat, hi: nat) {
    exists n :: lo < n <= hi && id == PersonTrackId(name, n)
  }

  ghost predicate ValidSession(name: string, s: Session) {
    forall id :: id in s.tracks ==> s.tracks[id].id == id && Numbered(name, id, 0, s.nextId)
  }

  ghost predicate ValidMatching(s: Session, matched: map<nat, string>) {
    && (forall i :: i in matched ==> matched[i] in s.tracks)
    && (forall i, j :: i in matched && j in matched && matched[i] == matched[j] ==> i == j)
  }

  // What detection i is shown as: its matched track moved to it, or a track with
  // a number never used before.
  ghost predicate PlacedAt(name: string, s: Session, matched: map<nat, string>, i: nat, d: PersonDetection, now: int,
                           hi: nat, seen: Seen) {
    if i in matched then matched[i] in s.tracks && seen == SeenOf(Place(s.tracks[matched[i]], d, now))
    else Numbered(name, seen.trackId, s.nextId, hi) && seen == SeenOf(Place(NewTrack(seen.trackId, now), d, now))
  }

  // A track the detections are not matched to stays as it is; a matched one only
  // moves, keeping what is known about its face.
  ghost predicate KeptAs(t: Track, t': Track, moved: bool) {
    && (!moved ==> t' == t)
    && t' == t.(rectangle := t'.rectangle, score := t'.score, lastSeen := t'.lastSeen)
  }

  ghost predicate Moved(matched: map<nat, string>, n: nat, id: string) {
    exists i :: 0 <= i < n && i in matched && matched[i] == id
  }

  ghost predicate Listed(out: seq<Seen>, id: string) {
    exists i :: 0 <= i < |out| && out[i].trackId == id
  }

  ghost predicate AllKept(s: Session, matched: map<nat, string>, n: nat, s': Session) {
    forall id :: id in s.tracks ==> id in s'.tracks && KeptAs(s.tracks[id], s'.tracks[id], Moved(matched, n, id))
  }

  ghost predicate AllPlaced(name: string, s: Session, matched: map<nat, string>, ds: seq<PersonDetection>, now: int,
                            hi: nat, out: seq<Seen>)
  {
    |out| == |ds| && forall i :: 0 <= i < |ds| ==> PlacedAt(name, s, matched, i, ds[i], now, hi, out[i])
  }

  // The session holds what is reported; beyond its old tracks there are only new
  // ones, about whose faces nothing is known.
  ghost predicate AllShown(s: Session, now: int, s': Session, out: seq<Seen>) {
    && (forall id :: id in s'.tracks && id !in s.tracks ==>
          Listed(out, id) && KeptAs(NewTrack(id, now), s'.tracks[id], true))
    && (forall i :: 0 <= i < |out| ==>
          && out[i].trackId in s'.tracks && SeenOf(s'.tracks[out[i].trackId]) == out[i]
          && s'.tracks[out[i].trackId].lastSeen == now)
  }

  ghost predicate Placed(name: string, s: Session, matched: map<nat, string>, ds: seq<PersonDetection>, now: int,
                         s': Session, out: seq<Seen>)
  {
    && s.nextId <= s'.nextId
    && AllKept(s, matched, |ds|, s')
    && AllPlaced(name, s, matched, ds, now, s'.nextId, out)
    && AllShown(s, now, s', out)
    && DistinctIds(out)
  }

  ghost predicate DistinctIds(out: seq<Seen>) {
    forall i, j :: 0 <= i < j < |out| ==> out[i].trackId != out[j].trackId
  }

  lemma NewIdsAreFresh(name: string, s: Session, id: string, hi: nat)
    requires ValidSession(name, s) && Numbered(name, id, s.nextId, hi)
    ensures id !in s.tracks
  {
    if id in s.tracks {
      var m :| 0 < m <= s.nextId && id == PersonTrackId(name, m);
      var n :| s.nextId < n <= hi && id == PersonTrackId(name, n);
      PersonTrackIdInjective(name, m, n);
    }
  }

  lemma NumberedWider(name: string, id: string, lo: nat, hi: nat, lo': nat, hi': nat)
    requires Numbered(name, id, lo, hi) && lo' <= lo && hi <= hi'
    ensures Numbered(name, id, lo', hi')
  {
  }

  // A matched id is no earlier detection's: not another matched one, not a new one.
  lemma MatchedIdNew(name: string, s: Session, matched: map<nat, string>, ds: seq<PersonDetection>, now: int,
                     hi: nat, out: seq<Seen>, n: nat)
    requires ValidSession(name, s) && ValidMatching(s, matched) && n in matched
    requires |ds| <= n && AllPlaced(name, s, matched, ds, now, hi, out)
    ensures forall i :: 0 <= i < |out| ==> out[i].trackId != matched[n]
  {
    forall i | 0 <= i < |out|
      ensures out[i].trackId != matched[n]
    {
      assert PlacedAt(name, s, matched, i, ds[i], now, hi, out[i]);
      if i in matched {
        assert out[i].trackId == matched[i];
      } else {
        NewIdsAreFresh(name, s, out[i].trackId, hi);
      }
    }
  }

  // The last detection gets an id no earlier one has.
  lemma LastIdNew(name: string, s: Session, matched: map<nat, string>, ds: seq<PersonDetection>, now: int,
                  before: Session, out: seq<Seen>, after: Session, seen: Seen)
    requires ds != [] && ValidSession(name, s) && ValidMatching(s, matched)
    requires AllKept(s, matched, |ds| - 1, before) && AllShown(s, now, before, out)
    requires AllPlaced(name, s, matched, ds[..|ds| - 1], now, before.nextId, out)
    requires ValidSession(name, before) && "" !in before.tracks
    requires (after, seen) == PlaceOne(name, before, MatchOf(matched, |ds| - 1), ds[|ds| - 1], now)
    ensures forall i :: 0 <= i < |out| ==> out[i].trackId != seen.trackId
  {
    var n := |ds| - 1;
    if n in matched {
      MatchedIdNew(name, s, matched, ds[..n], now, before.nextId, out, n);
      assert seen.trackId == matched[n];
    } else {
      assert Numbered(name, seen.trackId, before.nextId, before.nextId + 1);
      NewIdsAreFresh(name, before, seen.trackId, before.nextId + 1);
    }
  }

  lemma PlaceLast(name: string, s: Session, matched: map<nat, string>, ds: seq<PersonDetection>, now: int,
                  before: Session, out: seq<Seen>, after: Session, seen: Seen)
    requires ds != [] && ValidSession(name, s) && ValidMatching(s, matched)
    requires Placed(name, s, matched, ds[..|ds| - 1], now, before, out)
    requires ValidSession(name, before) && "" !in before.tracks
    requires (after, seen) == PlaceOne(name, before, MatchOf(matched, |ds| - 1), ds[|ds| - 1], now)
    ensures Placed(name, s, matched, ds, now, after, out + [seen])
  {
    LastIdNew(name, s, matched, ds, now, before, out, after, seen);
    LastPlaced(name, s, matched, ds, now, before, out, after, seen);
    TracksKept(name, s, matched, ds, now, before, out, after, seen);
    PlacedStep(name, s, matched, ds, now, before.nextId, after.nextId, out, seen);
    ShownStep(s, now, before, after, out, seen);
  }

  lemma PlacedStep(name: string, s: Session, matched: map<nat, string>, ds: seq<PersonDetection>, now: int,
                   mid: nat, hi: nat, out: seq<Seen>, seen: Seen)
    requires ds != [] && mid <= hi && AllPlaced(name, s, matched, ds[..|ds| - 1], now, mid, out)
    requires PlacedAt(name, s, matched, |ds| - 1, ds[|ds| - 1], now, hi, seen)
    ensures AllPlaced(name, s, matched, ds, now, hi, out + [seen])
  {
    var n := |ds| - 1;
    forall i | 0 <= i < |ds|
      ensures PlacedAt(name, s, matched, i, ds[i], now, hi, (out + [seen])[i])
    {
      if i < n {
        assert PlacedAt(name, s, matched, i, ds[..n][i], now, mid, out[i]);
      }
    }
  }

  lemma ShownStep(s: Session, now: int, before: Session, after: Session, out: seq<Seen>, seen: Seen)
    requires AllShown(s, now, before, out) && forall i :: 0 <= i < |out| ==> out[i].trackId != seen.trackId
    requires seen.trackId in after.tracks && SeenOf(after.tracks[seen.trackId]) == seen
    requires after.tracks[seen.trackId].lastSeen == now
    requires after.tracks == before.tracks[seen.trackId := after.tracks[seen.trackId]]
    requires seen.trackId in s.tracks || KeptAs(NewTrack(seen.trackId, now), after.tracks[seen.trackId], true)
    ensures AllShown(s, now, after, out + [seen])
  {
    var all := out + [seen];
    forall id | id in after.tracks && id !in s.tracks
      ensures Listed(all, id) && KeptAs(NewTrack(id, now), after.tracks[id], true)
    {
      if id == seen.trackId {
        assert all[|out|].trackId == id;
      } else {
        var i :| 0 <= i < |out| && out[i].trackId == id;
        assert all[i].trackId == id;
      }
    }
  }

  lemma TracksKept(name: string, s: Session, matched: map<nat, string>, ds: seq<PersonDetection>, now: int,
                   before: Session, out: seq<Seen>, after: Session, seen: Seen)
    requires ds != [] && ValidSession(name, s) && ValidMatching(s, matched)
    requires AllKept(s, matched, |ds| - 1, before)
    requires ValidSession(name, before) && "" !in before.tracks
    requires (after, seen) == PlaceOne(name, before, MatchOf(matched, |ds| - 1), ds[|ds| - 1], now)
    ensures forall id :: id in s.tracks ==>
              id in after.tracks && KeptAs(s.tracks[id], after.tracks[id], Moved(matched, |ds|, id))
  {
    var n := |ds| - 1;
    forall id | id in s.tracks
      ensures id in after.tracks && KeptAs(s.tracks[id], after.tracks[id], Moved(matched, |ds|, id))
    {
      assert KeptAs(s.tracks[id], before.tracks[id], Moved(matched, n, id));
      if n in matched {
        assert id == matched[n] ==> Moved(matched, |ds|, id);
      } else if id == PersonTrackId(name, before.nextId + 1) {
        assert Numbered(name, id, before.nextId, before.nextId + 1);
        NewIdsAreFresh(name, before, id, before.nextId + 1);
      }
    }
  }

  // The last detection meets its matched track as it was at the start.
  lemma LastPlaced(name: string, s: Session, matched: map<nat, string>, ds: seq<PersonDetection>, now: int,
                   before: Session, out: seq<Seen>, after: Session, seen: Seen)
    requires ds != [] && ValidSession(name, s) && ValidMatching(s, matched)
    requires Placed(name, s, matched, ds[..|ds| - 1], now, before, out)
    requires ValidSession(name, before) && "" !in before.tracks
    requires (after, seen) == PlaceOne(name, before, MatchOf(matched, |ds| - 1), ds[|ds| - 1], now)
    ensures PlacedAt(name, s, matched, |ds| - 1, ds[|ds| - 1], now, after.nextId, seen)
    ensures seen.trackId in after.tracks && SeenOf(after.tracks[seen.trackId]) == seen
    ensures after.tracks[seen.trackId].lastSeen == now
    ensures after.tracks == before.tracks[seen.trackId := after.tracks[seen.trackId]]
    ensures seen.trackId in s.tracks || KeptAs(NewTrack(seen.trackId, now), after.tracks[seen.trackId], true)
  {
    var n := |ds| - 1;
    if n in matched {
      assert KeptAs(s.tracks[matched[n]], before.tracks[matched[n]], Moved(matched, n, matched[n]));
      assert before.tracks[matched[n]] == s.tracks[matched[n]];
      assert before.tracks[matched[n]].id == matched[n];
    } else {
      assert seen.trackId == PersonTrackId(name, before.nextId + 1);
    }
  }

  lemma PlaceOneValid(name: string, s: Session, id: string, d: PersonDetection, now: int)
    requires ValidSession(name, s)
    ensures ValidSession(name, PlaceOne(name, s, id, d, now).0)
  {
    var after := PlaceOne(name, s, id, d, now).0;
    forall k | k in after.tracks
      ensures after.tracks[k].id == k && Numbered(name, k, 0, after.nextId)
    {
      if k in s.tracks {
        NumberedWider(name, k, 0, s.nextId, 0, after.nextId);
      }
    }
  }

  lemma NoEmptyId(name: string, s: Session)
    requires ValidSession(name, s)
    ensures "" !in s.tracks
  {
    assert forall n: nat :: |PersonTrackId(name, n)| > 0;
  }

  lemma {:induction false} PlacingPlaces(name: string, s: Session, matched: map<nat, string>,
                                         ds: seq<PersonDetection>, now: int)
    requires ValidSession(name, s) && ValidMatching(s, matched)
    ensures var (s', out) := PlaceAll(name, s, matched, ds, now);
            && ValidSession(name, s')
            && Placed(name, s, matched, ds, now, s', out)
  {
    if ds != [] {
      var n := |ds| - 1;
      PlacingPlaces(name, s, matched, ds[..n], now);
      var (before, out) := PlaceAll(name, s, matched, ds[..n], now);
      var (after, seen) := PlaceOne(name, before, MatchOf(matched, n), ds[n], now);
      NoEmptyId(name, before);
      PlaceOneValid(name, before, MatchOf(matched, n), ds[n], now);
      PlaceLast(name, s, matched, ds, now, before, out, after, seen);
    }
  }

  // ---- The tracker ----

  predicate AssociationCandidate(c: Candidate<string, ()>, tracks: map<string, Track>, ds: seq<PersonDetection>,
                                 association: (Rect, Rect) -> real)
  {
    && c.left < |ds| && c.right in tracks
    && c == Candidate(c.left, c.right, association(tracks[c.right].rectangle, ds[c.left].rectangle), ())
    && c.score >= MIN_ASSOCIATION
  }

  // Every pair of a detection and a track that scores enough, and no other.
  ghost predicate AllCandidates(cs: seq<Candidate<string, ()>>, tracks: map<string, Track>, ds: seq<PersonDetection>,
                                association: (Rect, Rect) -> real)
  {
    forall c :: c in cs <==> AssociationCandidate(c, tracks, ds, association)
  }

  function MatchedBy(selected: seq<Candidate<string, ()>>): map<nat, string> {
    if selected == [] then map[]
    else
      var c := selected[|selected| - 1];
      MatchedBy(selected[..|selected| - 1])[c.left := c.right]
  }

  ghost predicate Selects(selected: seq<Candidate<string, ()>>, i: nat, id: string) {
    exists c :: c in selected && c.left == i && c.right == id
  }

  lemma {:induction false} MatchedBySelected(selected: seq<Candidate<string, ()>>)
    ensures forall i :: i in MatchedBy(selected) ==> Selects(selected, i, MatchedBy(selected)[i])
  {
    if selected != [] {
      var before, last := selected[..|selected| - 1], selected[|selected| - 1];
      MatchedBySelected(before);
      forall i | i in MatchedBy(selected)
        ensures Selects(selected, i, MatchedBy(selected)[i])
      {
        if i == last.left {
          assert last in selected;
        } else {
          assert Selects(before, i, MatchedBy(before)[i]);
        }
      }
    }
  }

  lemma SelectionMatches(s: Session, ds: seq<PersonDetection>, association: (Rect, Rect) -> real,
                         selected: seq<Candidate<string, ()>>, candidates: seq<Candidate<string, ()>>)
    requires OneToOne(selected, candidates) && AllCandidates(candidates, s.tracks, ds, association)
    ensures ValidMatching(s, MatchedBy(selected))
  {
    var matched := MatchedBy(selected);
    MatchedBySelected(selected);
    forall i, j | i in matched && j in matched && matched[i] == matched[j]
      ensures i == j
    {
      assert Selects(selected, i, matched[i]) && Selects(selected, j, matched[j]);
      var c :| c in selected && c.left == i && c.right == matched[i];
      var d :| d in selected && d.left == j && d.right == matched[j];
      var x :| 0 <= x < |selected| && selected[x] == c;
      var y :| 0 <= y < |selected| && selected[y] == d;
      assert Clash(c, d);
    }
  }

  // A track's best quality, identity and last extraction are what its complete
  // record history makes of a new track, however often it was moved.
  ghost predicate Follows(t: Track, records: seq<Record>) {
    var r := RunRecords(NewTrack(t.id, t.firstSeen), records);
    && t.bestQuality == r.bestQuality && t.lastFeatureAt == r.lastFeatureAt
    && t.student == r.student && t.similarity == r.similarity
  }

  ghost predicate SessionFollows(s: Session, records: map<string, seq<Record>>) {
    s.tracks.Keys == records.Keys && forall id :: id in s.tracks ==> Follows(s.tracks[id], records[id])
  }

  // The histories after a frame: expired tracks lose theirs, new ones start empty.
  function RecordsOf(tracks: map<string, Track>, records: map<string, seq<Record>>): map<string, seq<Record>> {
    map id | id in tracks :: if id in records then records[id] else []
  }

  ghost predicate Recorded(t: Track, records: seq<Record>) {
    exists r :: r in records && r.student == t.student && r.similarity == t.similarity
  }

  lemma {:induction false} IdentityWasRecorded(track: Track, rs: seq<Record>)
    requires track.student.None?
    ensures RunRecords(track, rs).student.Some? ==> Recorded(RunRecords(track, rs), rs)
  {
    if rs != [] {
      IdentityWasRecorded(track, rs[..|rs| - 1]);
      assert rs[|rs| - 1] in rs;
      if Recorded(RunRecords(track, rs[..|rs| - 1]), rs[..|rs| - 1]) {
        var r :| r in rs[..|rs| - 1] && r.student == RunRecords(track, rs[..|rs| - 1]).student
                 && r.similarity == RunRecords(track, rs[..|rs| - 1]).similarity;
        assert r in rs;
      }
    }
  }

  // What holds of every live track of the tracker: its identity came with one of
  // its records, its best quality is the best recorded one, and it has changed
  // identity at most six times.
  lemma LiveTrackLife(t: Track, records: seq<Record>)
    requires Follows(t, records) && forall r :: r in records ==> RecordedQuality(r.quality)
    ensures t.student.Some? ==> Recorded(t, records)
    ensures forall r :: r in records ==> r.quality <= t.bestQuality
    ensures if records == [] then t.bestQuality == 0.0 else exists r :: r in records && r.quality == t.bestQuality
    ensures IdentityChanges(NewTrack(t.id, t.firstSeen), records) <= 6
  {
    var blank := NewTrack(t.id, t.firstSeen);
    IdentityWasRecorded(blank, records);
    BestIsMaximum(blank, records);
    AtMostSixChanges(blank, records);
  }

  lemma MoveFollows(t: Track, t': Track, moved: bool, records: seq<Record>)
    requires Follows(t, records) && KeptAs(t, t', moved)
    ensures Follows(t', records)
  {
  }

  lemma ObserveFollows(name: string, s: Session, records: map<string, seq<Record>>, matched: map<nat, string>,
                       ds: seq<PersonDetection>, now: int, s': Session, out: seq<Seen>)
    requires ValidSession(name, s) && SessionFollows(s, records) && Placed(name, s, matched, ds, now, s', out)
    ensures SessionFollows(s', RecordsOf(s'.tracks, records))
  {
    forall id | id in s'.tracks
      ensures Follows(s'.tracks[id], RecordsOf(s'.tracks, records)[id])
    {
      if id in s.tracks {
        assert KeptAs(s.tracks[id], s'.tracks[id], Moved(matched, |ds|, id));
        MoveFollows(s.tracks[id], s'.tracks[id], Moved(matched, |ds|, id), records[id]);
      } else {
        MoveFollows(NewTrack(id, now), s'.tracks[id], true, []);
      }
    }
  }

  lemma ExpiryKeeps(name: string, s: Session, records: map<string, seq<Record>>, now: int)
    requires ValidSession(name, s) && SessionFollows(s, records)
    ensures var live := Unexpired(s.tracks, now);
            ValidSession(name, s.(tracks := live)) && SessionFollows(s.(tracks := live), RecordsOf(live, records))
  {
  }

  function RecordSession(s: Session, id: string, r: Record): Session {
    if id in s.tracks then s.(tracks := s.tracks[id := RecordStep(s.tracks[id], r)]) else s
  }

  // The histories after a record: it is appended to that of its track, if it lives.
  function HistoriesWith(records: map<string, seq<Record>>, id: string, r: Record): map<string, seq<Record>> {
    if id in records then records[id := records[id] + [r]] else records
  }

  lemma RecordFollows(name: string, s: Session, records: map<string, seq<Record>>, id: string, r: Record)
    requires ValidSession(name, s) && SessionFollows(s, records) && id in s.tracks
    ensures ValidSession(name, RecordSession(s, id, r))
    ensures SessionFollows(RecordSession(s, id, r), HistoriesWith(records, id, r))
  {
    RecordedNext(s.tracks[id], records[id], r);
    forall k | k in s.tracks
      ensures Follows(RecordSession(s, id, r).tracks[k], HistoriesWith(records, id, r)[k])
    {
      assert Follows(s.tracks[k], records[k]);
    }
  }

  lemma RecordedNext(t: Track, records: seq<Record>, r: Record)
    requires Follows(t, records)
    ensures Follows(RecordStep(t, r), records + [r])
  {
    assert (records + [r])[..|records|] == records;
  }

  // The quality gate, and what a track that is gone or unknown needs.
  predicate Needed(tracks: map<string, Track>, id: string, quality: real, now: int) {
    quality >= MIN_QUALITY && (id in tracks ==> NeedsFeature(tracks[id], quality, now))
  }

  // One frame: expiry, a greedy matching of all candidate pairs, and the placing
  // of every detection by it.
  ghost predicate Associated(name: string, s: Session, ds: seq<PersonDetection>, now: int, association: (Rect,
                             Rect) -> real,
                             s': Session, out: seq<Seen>, candidates: seq<Candidate<string, ()>>,
                             selected: seq<Candidate<string, ()>>)
  {
    var live := Session(Unexpired(s.tracks, now), s.nextId);
    && AllCandidates(candidates, live.tracks, ds, association)
    && GreedyMatching(selected, candidates)
    && Placed(name, live, MatchedBy(selected), ds, now, s', out)
    && (s', out) == PlaceAll(name, live, MatchedBy(selected), ds, now)
  }

  class PersonTracker {
    const association: (Rect, Rect) -> real
    var sessions: map<string, Session>
    ghost var records: map<string, map<string, seq<Record>>>

    ghost predicate Valid()
      reads this
    {
      && sessions.Keys == records.Keys
      && forall name :: name in sessions ==>
           ValidSession(name, sessions[name]) && SessionFollows(sessions[name], records[name])
    }

    function Tracks(sessionId: string): map<string, Track>
      reads this
    {
      var name := SessionKey(sessionId);
      if name in sessions then sessions[name].tracks else map[]
    }

    function NextId(sessionId: string): nat
      reads this
    {
      var name := SessionKey(sessionId);
      if name in sessions then sessions[name].nextId else 0
    }

    constructor (score: (Rect, Rect) -> real)
      ensures Valid() && sessions == map[] && association == score
    {
      association := score;
      sessions, records := map[], map[];
    }

    // Detections and live tracks are matched greedily; each matched track moves
    // to its detection, each other detection starts a track.
    method Observe(sessionId: string, detections: seq<PersonDetection>, now: int)
      returns (out: seq<Seen>, ghost candidates: seq<Candidate<string, ()>>, ghost selected: seq<Candidate<string, ()>>)
      requires Valid()
      modifies this`sessions, this`records
      ensures Valid() && SessionKey(sessionId) in sessions
      ensures Associated(SessionKey(sessionId), Session(old(Tracks(sessionId)), old(NextId(sessionId))),
                         detections, now, association, sessions[SessionKey(sessionId)], out, candidates, selected)
      ensures sessions == old(sessions)[SessionKey(sessionId) := sessions[SessionKey(sessionId)]]
      ensures var name := SessionKey(sessionId);
              var past := if name in old(records) then old(records)[name] else map[];
              var live := Unexpired(old(Tracks(sessionId)), now);
              records == old(records)[name := RecordsOf(sessions[name].tracks, RecordsOf(live, past))]
    {
      var name := if sessionId == "" then "default" else sessionId;
      var session := if name in sessions then sessions[name] else Session(map[], 0);
      ghost var history: map<string, seq<Record>> := if name in records then records[name] else map[];
      session, out, candidates, selected, history := ObserveFrame(name, session, detections, now, history);
      sessions := sessions[name := session];
      records := records[name := history];
    }

    method ObserveFrame(name: string, before: Session, detections: seq<PersonDetection>, now: int,
                        ghost past: map<string, seq<Record>>)
      returns (after: Session, out: seq<Seen>, ghost candidates: seq<Candidate<string, ()>>,
               ghost selected: seq<Candidate<string, ()>>, ghost history: map<string, seq<Record>>)
      requires ValidSession(name, before) && SessionFollows(before, past)
      ensures ValidSession(name, after) && SessionFollows(after, history)
      ensures history == RecordsOf(after.tracks, RecordsOf(Unexpired(before.tracks, now), past))
      ensures Associated(name, before, detections, now, association, after, out, candidates, selected)
    {
      ExpiryKeeps(name, before, past, now);
      var live := DropExpired(before.tracks, now);
      var session := before.(tracks := live);
      history := RecordsOf(live, past);
      var cs := Candidates(live, detections);
      var pairs, sorted := Assign(cs);
      candidates, selected := cs, pairs;
      SelectionMatches(session, detections, association, pairs, cs);
      PlacingPlaces(name, session, MatchedBy(pairs), detections, now);
      after, out := PlaceDetections(name, session, pairs, detections, now);
      ObserveFollows(name, session, history, MatchedBy(pairs), detections, now, after, out);
      history := RecordsOf(after.tracks, history);
    }

    method DropExpired(tracks: map<string, Track>, now: int) returns (left: map<string, Track>)
      ensures left == Unexpired(tracks, now)
    {
      left := tracks;
      var todo := tracks.Keys;
      while todo != {}
        invariant todo <= tracks.Keys
        invariant forall k :: k in left <==> k in tracks && (k in todo || now - tracks[k].lastSeen <= TRACK_TTL)
        invariant forall k :: k in left ==> left[k] == tracks[k]
        decreases todo
      {
        var id :| id in todo;
        if now - tracks[id].lastSeen > TRACK_TTL {
          left := left - {id};
        }
        todo := todo - {id};
      }
    }

    method Candidates(tracks: map<string, Track>, detections: seq<PersonDetection>)
      returns (cs: seq<Candidate<string, ()>>)
      ensures AllCandidates(cs, tracks, detections, association)
    {
      cs := [];
      for i := 0 to |detections|
        invariant AllCandidates(cs, tracks, detections[..i], association)
      {
        var more := CandidatesOf(i, tracks, detections[i]);
        cs := cs + more;
      }
      assert detections[..|detections|] == detections;
    }

    method CandidatesOf(i: nat, tracks: map<string, Track>, detection: PersonDetection)
      returns (cs: seq<Candidate<string, ()>>)
      ensures forall c :: c in cs <==>
                          (c.right in tracks && c.score >= MIN_ASSOCIATION
                           && c == Candidate(i, c.right,
                                             association(tracks[c.right].rectangle, detection.rectangle), ()))
    {
      cs := [];
      var todo := tracks.Keys;
      while todo != {}
        invariant todo <= tracks.Keys
        invariant forall c :: c in cs <==>
                              (c.right in tracks && c.right !in todo && c.score >= MIN_ASSOCIATION
                               && c == Candidate(i, c.right,
                                                 association(tracks[c.right].rectangle, detection.rectangle), ()))
        decreases todo
      {
        var id :| id in todo;
        var score := association(tracks[id].rectangle, detection.rectangle);
        if score >= MIN_ASSOCIATION {
          cs := cs + [Candidate(i, id, score, ())];
        }
        todo := todo - {id};
      }
    }

    method PlaceDetections(name: string, session: Session, selected: seq<Candidate<string, ()>>,
                           detections: seq<PersonDetection>, now: int)
      returns (after: Session, out: seq<Seen>)
      ensures (after, out) == PlaceAll(name, session, MatchedBy(selected), detections, now)
    {
      var matched: map<nat, string> := map[];
      for i := 0 to |selected|
        invariant matched == MatchedBy(selected[..i])
      {
        assert selected[..i + 1][..i] == selected[..i];
        matched := matched[selected[i].left := selected[i].right];
      }
      assert selected[..|selected|] == selected;
      after, out := session, [];
      for i := 0 to |detections|
        invariant (after, out) == PlaceAll(name, session, matched, detections[..i], now)
      {
        assert detections[..i + 1][..i] == detections[..i];
        var id := if i in matched then matched[i] else "";
        var track;
        if id in after.tracks {
          track := after.tracks[id];
        } else {
          after := after.(nextId := after.nextId + 1);
          id := PersonTrackId(name, after.nextId);
          track := NewTrack(id, now);
        }
        if !track.rectangle.Empty() {
          track := track.(rectangle := Blend(track.rectangle, detections[i].rectangle, CURRENT_WEIGHT));
        } else {
          track := track.(rectangle := detections[i].rectangle);
        }
        track := track.(score := detections[i].score, lastSeen := now);
        after := after.(tracks := after.tracks[id := track]);
        out := out + [SeenOf(track)];
      }
      assert detections[..|detections|] == detections;
    }

    method NeedFeature(sessionId: string, trackId: string, quality: real, now: int) returns (need: bool)
      requires Valid()
      ensures need == Needed(Tracks(sessionId), trackId, quality, now)
      ensures var tracks := Tracks(sessionId);
              need <==> quality >= 0.45
                        && (trackId !in tracks || tracks[trackId].lastFeatureAt.None?
                            || quality >= tracks[trackId].bestQuality + 0.04
                            || (tracks[trackId].student.None? && now - tracks[trackId].lastFeatureAt.value >= 600))
    {
      ghost var name := SessionKey(sessionId);
      if name in sessions {
        NoEmptyId(name, sessions[name]);
      }
      if quality < MIN_QUALITY || trackId == "" {
        return trackId == "" && quality >= MIN_QUALITY;
      }
      var tracks := Tracks(sessionId);
      if trackId !in tracks {
        return true;
      }
      return NeedsFeature(tracks[trackId], quality, now);
    }

    method RecordFeature(sessionId: string, trackId: string, quality: real, student: Option<nat>, similarity: real,
                         now: int)
      requires Valid()
      modifies this`sessions, this`records
      ensures Valid()
      ensures var name := SessionKey(sessionId);
              sessions == if name in old(sessions)
                          then old(sessions)[name := RecordSession(old(sessions)[name], trackId,
                                                                   Record(quality, student, similarity, now))]
                          else old(sessions)
      ensures var name := SessionKey(sessionId);
              records == if name in old(records)
                         then old(records)[name := HistoriesWith(old(records)[name], trackId,
                                                                 Record(quality, student, similarity, now))]
                         else old(records)
    {
      var name := if sessionId == "" then "default" else sessionId;
      if trackId == "" || name !in sessions {
        if name in sessions {
          NoEmptyId(name, sessions[name]);
          assert sessions[name := sessions[name]] == sessions && records[name := records[name]] == records;
        }
        return;
      }
      var session;
      ghost var history;
      session, history := RecordIn(name, sessions[name], records[name], trackId, quality, student, similarity, now);
      sessions := sessions[name := session];
      records := records[name := history];
    }

    static method RecordIn(name: string, session: Session, ghost past: map<string, seq<Record>>, trackId: string,
                           quality: real, student: Option<nat>, similarity: real, now: int)
      returns (after: Session, ghost history: map<string, seq<Record>>)
      requires ValidSession(name, session) && SessionFollows(session, past)
      ensures after == RecordSession(session, trackId, Record(quality, student, similarity, now))
      ensures history == HistoriesWith(past, trackId, Record(quality, student, similarity, now))
      ensures ValidSession(name, after) && SessionFollows(after, history)
    {
      if trackId !in session.tracks {
        return session, past;
      }
      ghost var r := Record(quality, student, similarity, now);
      RecordFollows(name, session, past, trackId, r);
      history := HistoriesWith(past, trackId, r);
      var track := RecordOn(session.tracks[trackId], quality, student, similarity, now);
      after := session.(tracks := session.tracks[trackId := track]);
    }

    static method RecordOn(track: Track, quality: real, student: Option<nat>, similarity: real, now: int)
      returns (updated: Track)
      ensures updated == RecordStep(track, Record(quality, student, similarity, now))
      // Another identity is taken over only from a face clearly better in both respects.
      ensures var taken := student.Some? && (track.student.None? || track.student == student
                                             || (quality >= track.bestQuality + 0.08
                                                 && similarity >= track.similarity + 0.03));
              && updated.student == (if taken then student else track.student)
              && updated.similarity == if taken then similarity else track.similarity
      ensures updated.bestQuality == if quality > track.bestQuality then quality else track.bestQuality
      ensures updated.lastFeatureAt == Some(now)
      ensures updated.id == track.id && updated.rectangle == track.rectangle && updated.score == track.score
              && updated.firstSeen == track.firstSeen && updated.lastSeen == track.lastSeen
    {
      var previousBest := track.bestQuality;
      updated := track.(lastFeatureAt := Some(now));
      if quality > updated.bestQuality {
        updated := updated.(bestQuality := quality);
      }
      if student.None? {
        return;
      }
      if updated.student.Some? && updated.student != student {
        if quality < previousBest + IDENTITY_IMPROVEMENT || similarity < updated.similarity + SIMILARITY_IMPROVEMENT {
          return;
        }
      }
      updated := updated.(student := student, similarity := similarity);
    }

    // What is known about a track's face; nothing for a track that is gone.
    method Identity(sessionId: string, trackId: string) returns (student: Option<nat>, similarity: real, best: real)
      requires Valid()
      ensures var tracks := Tracks(sessionId);
              (student, similarity, best) ==
                if trackId !in tracks then (None, 0.0, 0.0)
                else (tracks[trackId].student,
                      if tracks[trackId].student.Some? then tracks[trackId].similarity else 0.0,
                      tracks[trackId].bestQuality)
    {
      ghost var name := SessionKey(sessionId);
      if name in sessions {
        NoEmptyId(name, sessions[name]);
      }
      var tracks := Tracks(sessionId);
      if trackId == "" || trackId !in tracks {
        return None, 0.0, 0.0;
      }
      var track := tracks[trackId];
      if track.student.None? {
        return None, 0.0, track.bestQuality;
      }
      return track.student, track.similarity, track.bestQuality;
    }
  }
}
