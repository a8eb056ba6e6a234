// What a frame makes of the person tracks, field by field, with the numbers of
// internal/web/person_track.go written out.
module PersonFrame {
  import opened Prelude
  import opened Geometry
  import opened Greedy
  import opened TrackNames
  import opened PersonTrack

  // ---- Rectangles ----

  // The nearest whole number, half away from zero.
  predicate Nearest(x: real, n: int) {
    && n as real - 0.5 <= x <= n as real + 0.5
    && (x == n as real - 0.5 ==> x > 0.0) && (x == n as real + 0.5 ==> x < 0.0)
  }

  lemma RoundIsNearest(x: real)
    ensures Nearest(x, Round(x))
  {
    if x >= 0.0 {
      var n := (x + 0.5).Floor;
      assert n as real <= x + 0.5 < n as real + 1.0;
    } else {
      var n := (-x + 0.5).Floor;
      assert n as real <= -x + 0.5 < n as real + 1.0;
    }
  }

  predicate Mixed(previous: int, current: int, mixed: int) {
    Nearest(previous as real * 0.32 + current as real * 0.68, mixed)
  }

  // The two edges of one direction, in order.
  predicate EdgesMixed(low: int, high: int, low': int, high': int, lowNow: int, highNow: int) {
    && low' <= high'
    && ((Mixed(low, lowNow, low') && Mixed(high, highNow, high'))
        || (Mixed(low, lowNow, high') && Mixed(high, highNow, low')))
  }

  // A track's rectangle after a detection: that of the detection or, if the track has
  // one already, between the two and nearer to the detection.
  predicate Moves(previous: Rect, current: Rect, r: Rect) {
    if previous.minX >= previous.maxX || previous.minY >= previous.maxY then r == current
    else EdgesMixed(previous.minX, previous.maxX, r.minX, r.maxX, current.minX, current.maxX)
         && EdgesMixed(previous.minY, previous.maxY, r.minY, r.maxY, current.minY, current.maxY)
  }

  lemma MixIs(previous: int, current: int)
    ensures Mixed(previous, current, Round(Mix(previous, current, 0.68)))
  {
    RoundIsNearest(Mix(previous, current, 0.68));
  }

  lemma PlaceMoves(t: Track, d: PersonDetection, now: int)
    ensures Moves(t.rectangle, d.rectangle, Place(t, d, now).rectangle)
  {
    var p, c := t.rectangle, d.rectangle;
    MixIs(p.minX, c.minX);
    MixIs(p.minY, c.minY);
    MixIs(p.maxX, c.maxX);
    MixIs(p.maxY, c.maxY);
  }

  // ---- A frame ----

  predicate Alive(t: Track, now: int) {
    now - t.lastSeen <= 2000
  }

  // A track that a detection was matched to: moved to it, seen now, and as before in
  // everything that is known about its face.
  predicate MovedTo(t: Track, t': Track, d: PersonDetection, now: int) {
    && t'.id == t.id && Moves(t.rectangle, d.rectangle, t'.rectangle) && t'.score == d.score
    && t'.firstSeen == t.firstSeen && t'.lastSeen == now
    && t'.bestQuality == t.bestQuality && t'.lastFeatureAt == t.lastFeatureAt
    && t'.student == t.student && t'.similarity == t.similarity
  }

  // A track started by a detection: nothing is known about its face.
  predicate Started(t: Track, id: string, d: PersonDetection, now: int) {
    t == Track(id, d.rectangle, d.score, now, now, 0.0, None, None, 0.0)
  }

  predicate Reported(seen: Seen, t: Track) {
    && seen.trackId == t.id && seen.rectangle == t.rectangle && seen.score == t.score
    && seen.bestQuality == t.bestQuality && seen.student == t.student && seen.similarity == t.similarity
  }

  // The detection is reported with the track matched to it, or with a new one.
  ghost predicate DetectionTells(name: string, s: Session, s': Session, selected: seq<Candidate<string, ()>>, i: nat,
                                 d: PersonDetection, seen: Seen, now: int) {
    && seen.trackId in s'.tracks && Reported(seen, s'.tracks[seen.trackId])
    && if exists c :: c in selected && c.left == i then
         Selects(selected, i, seen.trackId)
         && seen.trackId in s.tracks && MovedTo(s.tracks[seen.trackId], s'.tracks[seen.trackId], d, now)
       else
         (exists n: nat :: s.nextId < n <= s'.nextId && seen.trackId == PersonTrackId(name, n))
         && Started(s'.tracks[seen.trackId], seen.trackId, d, now)
  }

  // A track of the session before is gone if it was not seen for more than two
  // seconds, and as it was if nothing was matched to it.
  ghost predicate TrackTells(s: Session, s': Session, selected: seq<Candidate<string, ()>>, id: string, now: int)
    requires id in s.tracks
  {
    if !Alive(s.tracks[id], now) then id !in s'.tracks
    else id in s'.tracks && ((exists c :: c in selected && c.right == id) || s'.tracks[id] == s.tracks[id])
  }

  ghost predicate FrameTells(name: string, s: Session, ds: seq<PersonDetection>, now: int, s': Session, out: seq<Seen>,
                             selected: seq<Candidate<string, ()>>) {
    && |out| == |ds|
    && (forall i: nat :: i < |ds| ==> DetectionTells(name, s, s', selected, i, ds[i], out[i], now))
    && (forall id :: id in s.tracks ==> TrackTells(s, s', selected, id, now))
    && (forall id :: id in s'.tracks && id !in s.tracks ==> exists i: nat :: i < |out| && out[i].trackId == id)
  }

  lemma {:induction false} MatchedIff(selected: seq<Candidate<string, ()>>, i: nat)
    ensures i in MatchedBy(selected) <==> exists c :: c in selected && c.left == i
  {
    if selected != [] {
      var before, last := selected[..|selected| - 1], selected[|selected| - 1];
      MatchedIff(before, i);
      assert selected == before + [last];
    }
  }

  lemma DetectionMeans(name: string, s: Session, live: Session, ds: seq<PersonDetection>, now: int, s': Session,
                       out: seq<Seen>, selected: seq<Candidate<string, ()>>, i: nat)
    requires live == Session(Unexpired(s.tracks, now), s.nextId) && i < |ds|
    requires ValidSession(name, s) && Placed(name, live, MatchedBy(selected), ds, now, s', out)
    ensures DetectionTells(name, s, s', selected, i, ds[i], out[i], now)
  {
    var matched, id := MatchedBy(selected), out[i].trackId;
    assert PlacedAt(name, live, matched, i, ds[i], now, s'.nextId, out[i]);
    MatchedIff(selected, i);
    MatchedBySelected(selected);
    if i in matched {
      assert KeptAs(live.tracks[id], s'.tracks[id], Moved(matched, |ds|, id));
      PlaceMoves(live.tracks[id], ds[i], now);
    } else {
      NewIdsAreFresh(name, s, id, s'.nextId);
      assert KeptAs(NewTrack(id, now), s'.tracks[id], true);
    }
  }

  lemma TrackMeans(name: string, s: Session, live: Session, ds: seq<PersonDetection>, now: int, s': Session,
                   out: seq<Seen>, selected: seq<Candidate<string, ()>>, id: string)
    requires live == Session(Unexpired(s.tracks, now), s.nextId) && id in s.tracks
    requires ValidSession(name, s) && Placed(name, live, MatchedBy(selected), ds, now, s', out)
    ensures TrackTells(s, s', selected, id, now)
  {
    var matched := MatchedBy(selected);
    if id in live.tracks {
      assert KeptAs(live.tracks[id], s'.tracks[id], Moved(matched, |ds|, id));
      if Moved(matched, |ds|, id) {
        var i :| 0 <= i < |ds| && i in matched && matched[i] == id;
        MatchedBySelected(selected);
        assert Selects(selected, i, id);
      }
    } else if id in s'.tracks {
      NewListed(name, s, live, ds, now, s', out, selected, id);
    }
  }

  // A track that is not one of the live ones was started under a new id.
  lemma NewListed(name: string, s: Session, live: Session, ds: seq<PersonDetection>, now: int, s': Session,
                  out: seq<Seen>, selected: seq<Candidate<string, ()>>, id: string)
    requires live == Session(Unexpired(s.tracks, now), s.nextId) && id in s'.tracks && id !in live.tracks
    requires ValidSession(name, s) && Placed(name, live, MatchedBy(selected), ds, now, s', out)
    ensures id !in s.tracks && exists i: nat :: i < |out| && out[i].trackId == id
  {
    assert Listed(out, id);
    var i: nat :| i < |out| && out[i].trackId == id;
    assert PlacedAt(name, live, MatchedBy(selected), i, ds[i], now, s'.nextId, out[i]);
    NewIdsAreFresh(name, s, id, s'.nextId);
  }

  // The candidates are all pairs of a detection and a live track that score 0.20.
  lemma CandidateMeans(s: Session, ds: seq<PersonDetection>, now: int, association: (Rect, Rect) -> real,
                       candidates: seq<Candidate<string, ()>>, c: Candidate<string, ()>)
    requires AllCandidates(candidates, Unexpired(s.tracks, now), ds, association)
    ensures c in candidates <==>
              c.left < |ds| && c.right in s.tracks && Alive(s.tracks[c.right], now)
              && c.score == association(s.tracks[c.right].rectangle, ds[c.left].rectangle) && c.score >= 0.20
  {
    assert c.payload == () && c == Candidate(c.left, c.right, c.score, c.payload);
    assert c in candidates <==> AssociationCandidate(c, Unexpired(s.tracks, now), ds, association);
  }

  // A frame moves the tracks matched, starts tracks for the other detections, drops
  // those not seen for two seconds and leaves the others alone.
  lemma FrameMeans(name: string, s: Session, ds: seq<PersonDetection>, now: int, s': Session, out: seq<Seen>,
                   selected: seq<Candidate<string, ()>>)
    requires ValidSession(name, s)
    requires Placed(name, Session(Unexpired(s.tracks, now), s.nextId), MatchedBy(selected), ds, now, s', out)
    ensures FrameTells(name, s, ds, now, s', out, selected)
  {
    var live := Session(Unexpired(s.tracks, now), s.nextId);
    forall i: nat | i < |ds|
      ensures DetectionTells(name, s, s', selected, i, ds[i], out[i], now)
    {
      DetectionMeans(name, s, live, ds, now, s', out, selected, i);
    }
    forall id | id in s.tracks
      ensures TrackTells(s, s', selected, id, now)
    {
      TrackMeans(name, s, live, ds, now, s', out, selected, id);
    }
    forall id | id in s'.tracks && id !in s.tracks
      ensures exists i: nat :: i < |out| && out[i].trackId == id
    {
      NewListed(name, s, live, ds, now, s', out, selected, id);
    }
  }
}
