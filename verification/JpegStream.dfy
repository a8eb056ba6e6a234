// The two incremental JPEG scanners (internal/web/camera_stream_pool.go,
// internal/web/cameras.go and internal/cameraio/cameraio.go) against one parse
// of the whole byte stream.
module JpegStream {
  import opened Prelude

  type Bytes = seq<Byte>

  const MAX_FRAME_BYTES: nat := 16 * 1024 * 1024
  const START: Byte := 0xd8
  const END: Byte := 0xd9

  predicate MarkerAt(s: Bytes, i: nat, code: Byte) {
    i + 1 < |s| && s[i] == 0xff && s[i + 1] == code
  }

  // bytes.Index of the marker (0xff, code), looking from position `from` on.
  function Index(s: Bytes, code: Byte, from: nat): (r: int)
    ensures r == -1 || (from <= r && MarkerAt(s, r, code))
    ensures forall j: nat :: from <= j && (r < 0 || j < r) ==> !MarkerAt(s, j, code)
    decreases if from < |s| then |s| - from else 0
  {
    if from + 1 >= |s| then -1
    else if MarkerAt(s, from, code) then from
    else Index(s, code, from + 1)
  }

  // ---- The reference: one parse of the whole stream ----

  // The stream from its first start marker on; empty when there is none.
  function Trim(s: Bytes): Bytes {
    var a := Index(s, START, 0);
    if a < 0 then [] else s[a..]
  }

  // The length of the first complete frame of a trimmed stream, 0 if none.
  function FirstLength(t: Bytes): (n: nat)
    ensures n <= |t|
  {
    var e := Index(t, END, 2);
    if e < 0 then 0 else e + 2
  }

  // First start marker, then first end marker at least two bytes later, repeat.
  function Parse(s: Bytes): seq<Bytes>
    decreases |s|
  {
    var t := Trim(s);
    var n := FirstLength(t);
    if n == 0 then [] else [t[..n]] + Parse(t[n..])
  }

  // The size of what follows the last complete frame, from its start marker on.
  function Tail(s: Bytes): nat
    decreases |s|
  {
    var t := Trim(s);
    var n := FirstLength(t);
    if n == 0 then |t| else Tail(t[n..])
  }

  // ---- What the parse cuts out ----

  predicate StartAt(s: Bytes, i: nat) {
    i + 1 < |s| && s[i] == 0xff && s[i + 1] == 0xd8
  }

  predicate EndAt(s: Bytes, i: nat) {
    i + 1 < |s| && s[i] == 0xff && s[i + 1] == 0xd9
  }

  // The first start marker is at a, and the first end marker at least two bytes later
  // ends at b.
  ghost predicate FrameAt(s: Bytes, a: nat, b: nat) {
    && StartAt(s, a) && (forall i: nat :: i < a ==> !StartAt(s, i))
    && a + 4 <= b && EndAt(s, b - 2) && (forall i: nat :: a + 2 <= i < b - 2 ==> !EndAt(s, i))
  }

  // The parse is the first frame and the parse of what comes after it, or nothing if
  // no start marker is followed by an end marker.
  lemma ParseCuts(s: Bytes)
    ensures forall a: nat, b: nat :: FrameAt(s, a, b) ==>
              b <= |s| && Parse(s) == [s[a..b]] + Parse(s[b..]) && Tail(s) == Tail(s[b..])
    ensures (forall a: nat, b: nat :: !FrameAt(s, a, b)) ==>
              && Parse(s) == []
              && (forall i: nat, j: nat :: StartAt(s, i) && i + 2 <= j ==> !EndAt(s, j))
              && (forall a: nat :: StartAt(s, a) && (forall i: nat :: i < a ==> !StartAt(s, i)) ==> Tail(s) == |s| - a)
              && ((forall a: nat :: !StartAt(s, a)) ==> Tail(s) == 0)
  {
    forall a: nat, b: nat | FrameAt(s, a, b)
      ensures b <= |s| && Parse(s) == [s[a..b]] + Parse(s[b..]) && Tail(s) == Tail(s[b..])
    {
      CutAt(s, a, b);
    }
    if forall a: nat, b: nat :: !FrameAt(s, a, b) {
      NothingToCut(s);
    }
  }

  lemma StartIsIndex(s: Bytes, a: nat)
    requires StartAt(s, a) && forall i: nat :: i < a ==> !StartAt(s, i)
    ensures Index(s, START, 0) == a
  {
    assert forall i: nat :: MarkerAt(s, i, START) <==> StartAt(s, i);
  }

  lemma FirstEnds(s: Bytes, a: nat, b: nat)
    requires FrameAt(s, a, b)
    ensures b <= |s| && Trim(s) == s[a..] && FirstLength(s[a..]) == b - a
  {
    StartIsIndex(s, a);
    var t := s[a..];
    assert forall i: nat :: MarkerAt(t, i, END) <==> EndAt(s, a + i);
    assert MarkerAt(t, b - 2 - a, END);
  }

  lemma CutAt(s: Bytes, a: nat, b: nat)
    requires FrameAt(s, a, b)
    ensures b <= |s| && Parse(s) == [s[a..b]] + Parse(s[b..]) && Tail(s) == Tail(s[b..])
  {
    FirstEnds(s, a, b);
    SlicesMeet(s, a, b);
  }

  lemma SlicesMeet(s: Bytes, a: nat, b: nat)
    requires a <= b <= |s|
    ensures s[a..][..b - a] == s[a..b] && s[a..][b - a..] == s[b..]
  {
  }

  lemma NoEndAfter(s: Bytes, a: nat)
    requires StartAt(s, a) && (forall i: nat :: i < a ==> !StartAt(s, i))
    requires forall b: nat :: !FrameAt(s, a, b)
    ensures FirstLength(s[a..]) == 0 && forall j: nat :: a + 2 <= j ==> !EndAt(s, j)
  {
    var t := s[a..];
    var e := Index(t, END, 2);
    forall j: nat | a <= j
      ensures EndAt(s, j) <==> MarkerAt(t, j - a, END)
    {
    }
    if e >= 0 {
      assert FrameAt(s, a, a + e + 2);
    }
  }

  lemma NothingToCut(s: Bytes)
    requires forall a: nat, b: nat :: !FrameAt(s, a, b)
    ensures Parse(s) == []
    ensures forall i: nat, j: nat :: StartAt(s, i) && i + 2 <= j ==> !EndAt(s, j)
    ensures forall a: nat :: StartAt(s, a) && (forall i: nat :: i < a ==> !StartAt(s, i)) ==> Tail(s) == |s| - a
    ensures (forall a: nat :: !StartAt(s, a)) ==> Tail(s) == 0
  {
    var a := Index(s, START, 0);
    assert forall i: nat :: MarkerAt(s, i, START) <==> StartAt(s, i);
    if a >= 0 {
      NoEndAfter(s, a);
    }
  }

  // networkCameraStream.publish as the callback: what it takes.
  predicate Publishable(frame: Bytes, decodable: Bytes -> bool) {
    0 < |frame| <= MAX_FRAME_BYTES && decodable(frame)
  }

  // The frames up to the first one the callback refuses.
  function Accepted(frames: seq<Bytes>, decodable: Bytes -> bool): seq<Bytes> {
    if frames == [] || !Publishable(frames[0], decodable) then []
    else [frames[0]] + Accepted(frames[1..], decodable)
  }

  // ---- What one reader.Read returns, and the bytes a run of reads delivers ----

  datatype Status = More | EndOfFile | Failed

  datatype Read = Read(data: Bytes, status: Status)

  function Delivered(input: seq<Read>): Bytes {
    if input == [] then []
    else input[0].data + (if input[0].status.More? then Delivered(input[1..]) else [])
  }

  datatype Outcome = Cancelled | AtEnd | ReadFailed | FrameTooLarge | Refused

  // ---- Facts about the reference parse ----

  lemma IndexInSuffix(s: Bytes, code: Byte, k: nat, from: nat)
    requires k <= from && k <= |s|
    ensures Index(s, code, from) ==
            var r := Index(s[k..], code, from - k); if r < 0 then -1 else r + k
  {
    var t := s[k..];
    var r, q := Index(t, code, from - k), Index(s, code, from);
    forall j: nat | k <= j
      ensures MarkerAt(s, j, code) <==> MarkerAt(t, j - k, code)
    {
      assert j + 1 < |s| ==> t[j - k] == s[j] && t[j - k + 1] == s[j + 1];
    }
    if r >= 0 {
      assert MarkerAt(s, r + k, code);
    }
    if q >= 0 {
      assert MarkerAt(t, q - k, code);
    }
  }

  lemma IndexInPrefix(s: Bytes, rest: Bytes, code: Byte, from: nat)
    requires Index(s, code, from) >= 0
    ensures Index(s + rest, code, from) == Index(s, code, from)
  {
    var t := s + rest;
    assert forall j: nat :: j + 1 < |s| ==> (MarkerAt(s, j, code) <==> MarkerAt(t, j, code));
  }

  // Bytes before the first start marker do not matter.
  lemma TrimSkips(s: Bytes, k: nat)
    requires k <= |s| && forall j: nat :: j < k ==> !MarkerAt(s, j, START)
    ensures Trim(s) == Trim(s[k..])
  {
    IndexInSuffix(s, START, k, k);
    assert Index(s, START, 0) == Index(s, START, k);
  }

  lemma Unfold(t: Bytes, n: nat)
    requires Trim(t) == t && FirstLength(t) == n > 0
    ensures Parse(t) == [t[..n]] + Parse(t[n..]) && Tail(t) == Tail(t[n..])
  {
  }

  lemma HeadComplete(p: Bytes, rest: Bytes)
    requires Index(p, START, 0) == 0 && Index(p, END, 2) >= 0
    ensures var n := Index(p, END, 2) + 2;
            n <= |p| && Trim(p + rest) == p + rest && FirstLength(p + rest) == n
  {
    IndexInPrefix(p, rest, START, 0);
    IndexInPrefix(p, rest, END, 2);
  }

  // A complete frame at the front of the buffer is the first frame of the stream,
  // whatever arrives later.
  lemma CompleteFrame(p: Bytes, rest: Bytes)
    requires Index(p, START, 0) == 0 && Index(p, END, 2) >= 0
    ensures var n := Index(p, END, 2) + 2;
            && n <= |p| && Tail(p + rest) == Tail(p[n..] + rest)
            && Parse(p + rest) == [p[..n]] + Parse(p[n..] + rest)
  {
    HeadComplete(p, rest);
    var t, n := p + rest, Index(p, END, 2) + 2;
    Unfold(t, n);
    CutWithin(p, rest, n);
  }

  lemma CutWithin(p: Bytes, rest: Bytes, n: nat)
    requires n <= |p|
    ensures (p + rest)[..n] == p[..n] && (p + rest)[n..] == p[n..] + rest
  {
  }

  // A buffer with no complete frame: the next frame of the stream, if it comes
  // at all, is longer than the buffer.
  lemma IncompleteFrame(p: Bytes, rest: Bytes)
    requires Index(p, START, 0) == 0 && Index(p, END, 2) < 0
    ensures Parse(p) == []
    ensures if Parse(p + rest) == [] then Tail(p + rest) >= |p| else |Parse(p + rest)[0]| > |p|
  {
    IndexInPrefix(p, rest, START, 0);
    var t := p + rest;
    assert Trim(t) == t;
    var e := Index(t, END, 2);
    if e >= 0 && e + 1 < |p| {
      assert MarkerAt(p, e, END);
    }
  }

  lemma {:induction false} AcceptedPrefix(frames: seq<Bytes>, n: nat, decodable: Bytes -> bool)
    requires n <= |frames| && forall i :: 0 <= i < n ==> Publishable(frames[i], decodable)
    ensures Accepted(frames, decodable) == frames[..n] + Accepted(frames[n..], decodable)
    decreases n
  {
    if n > 0 {
      AcceptedPrefix(frames[1..], n - 1, decodable);
      assert frames[1..][n - 1..] == frames[n..];
      assert frames[..n] == [frames[0]] + frames[1..][..n - 1];
    } else {
      assert frames[0..] == frames;
    }
  }

  // ---- Frames written back to back, each after a part header, come back whole ----

  ghost predicate WholeFrame(f: Bytes) {
    Index(f, START, 0) == 0 && Index(f, END, 2) == |f| - 2
  }

  datatype Part = Part(header: Bytes, frame: Bytes)

  function Join(parts: seq<Part>): Bytes {
    if parts == [] then [] else parts[0].header + (parts[0].frame + Join(parts[1..]))
  }

  function Frames(parts: seq<Part>): seq<Bytes> {
    if parts == [] then [] else [parts[0].frame] + Frames(parts[1..])
  }

  lemma PartComesFirst(h: Bytes, f: Bytes, rest: Bytes)
    requires 0xff !in h && WholeFrame(f)
    ensures Parse(h + (f + rest)) == [f] + Parse(rest) && Tail(h + (f + rest)) == Tail(rest)
  {
    var t := f + rest;
    NoMarkerInHeader(h, t);
    DropGarbage(h, t, |h|);
    NothingBefore(h, t);
    CompleteFrame(f, rest);
    NothingBefore(f, rest);
  }

  lemma NothingBefore(p: Bytes, rest: Bytes)
    ensures p[..|p|] == p && p[|p|..] + rest == rest
  {
  }

  lemma NoMarkerInHeader(h: Bytes, t: Bytes)
    requires 0xff !in h
    ensures forall j: nat :: j < |h| ==> !MarkerAt(h + t, j, START)
  {
    forall j: nat | j < |h|
      ensures !MarkerAt(h + t, j, START)
    {
      assert (h + t)[j] == h[j] && h[j] in h;
    }
  }

  lemma {:induction false} ParseInvertsJoin(parts: seq<Part>)
    requires forall p :: p in parts ==> 0xff !in p.header && WholeFrame(p.frame)
    ensures Parse(Join(parts)) == Frames(parts) && Tail(Join(parts)) == 0
  {
    if parts != [] {
      ParseInvertsJoin(parts[1..]);
      PartComesFirst(parts[0].header, parts[0].frame, Join(parts[1..]));
    }
  }

  lemma DropGarbage(p: Bytes, rest: Bytes, n: nat)
    requires n <= |p| && forall j: nat :: j < n ==> !MarkerAt(p + rest, j, START)
    ensures Parse(p + rest) == Parse(p[n..] + rest) && Tail(p + rest) == Tail(p[n..] + rest)
  {
    TrimSkips(p + rest, n);
    CutWithin(p, rest, n);
  }

  // ---- readJPEGSequence ----

  // A stream with frames P and tail size T: `frames` come first, each taken by
  // the callback, and the others are found in `left`.
  ghost predicate Taken(P: seq<Bytes>, T: nat, frames: seq<Bytes>, left: Bytes, decodable: Bytes -> bool) {
    && P == frames + Parse(left) && T == Tail(left)
    && (forall f :: f in frames ==> Publishable(f, decodable))
  }

  // Why the scan stopped early: the next frame, or the unterminated tail, is too
  // large, or the callback refuses the next frame.
  ghost predicate StopsAt(P: seq<Bytes>, T: nat, frames: seq<Bytes>, why: Outcome, decodable: Bytes -> bool) {
    && frames <= P
    && (forall f :: f in frames ==> Publishable(f, decodable))
    && match why
       case FrameTooLarge =>
         if |frames| == |P| then T > 16 * 1024 * 1024 else |P[|frames|]| > 16 * 1024 * 1024
       case Refused => |frames| < |P| && !Publishable(P[|frames|], decodable)
       case _ => false
  }

  lemma KeepLastByte(p: Bytes, rest: Bytes)
    requires |p| > 1 && Index(p, START, 0) < 0
    ensures var q := p[|p| - 1..]; Parse(p + rest) == Parse(q + rest) && Tail(p + rest) == Tail(q + rest)
  {
    assert forall j: nat :: j < |p| - 1 ==> (MarkerAt(p + rest, j, START) <==> MarkerAt(p, j, START));
    DropGarbage(p, rest, |p| - 1);
  }

  lemma SkipToStart(p: Bytes, rest: Bytes)
    requires Index(p, START, 0) >= 0
    ensures var q := p[Index(p, START, 0)..];
            Parse(p + rest) == Parse(q + rest) && Tail(p + rest) == Tail(q + rest) && Index(q, START, 0) == 0
  {
    var start := Index(p, START, 0);
    assert forall j: nat :: j < start ==> (MarkerAt(p + rest, j, START) <==> MarkerAt(p, j, START));
    DropGarbage(p, rest, start);
    IndexInSuffix(p, START, start, start);
    assert Index(p, START, start) == start;
  }

  lemma MoveOver<X>(xs: seq<X>, x: X, ys: seq<X>)
    ensures xs + ([x] + ys) == (xs + [x]) + ys
  {
  }

  // The cases of the loop below, on a buffer p of which `rest` is what later
  // reads bring: no start marker, ...
  lemma NoStart(P: seq<Bytes>, T: nat, frames: seq<Bytes>, p: Bytes, rest: Bytes, decodable: Bytes -> bool)
    requires Taken(P, T, frames, p + rest, decodable) && Index(p, START, 0) < 0
    ensures var q := if |p| > 1 then p[|p| - 1..] else p;
            |q| <= 1 && Parse(q) == [] && Taken(P, T, frames, q + rest, decodable)
  {
    if |p| > 1 {
      KeepLastByte(p, rest);
    }
  }

  // ... bytes before the start marker, ...
  lemma Skipped(P: seq<Bytes>, T: nat, frames: seq<Bytes>, p: Bytes, rest: Bytes, decodable: Bytes -> bool)
    requires Taken(P, T, frames, p + rest, decodable) && Index(p, START, 0) >= 0
    ensures var q := p[Index(p, START, 0)..];
            Index(q, START, 0) == 0 && Taken(P, T, frames, q + rest, decodable)
  {
    SkipToStart(p, rest);
  }

  // ... a frame that has not ended yet, ...
  lemma NotEnded(P: seq<Bytes>, T: nat, frames: seq<Bytes>, p: Bytes, rest: Bytes, decodable: Bytes -> bool)
    requires Taken(P, T, frames, p + rest, decodable) && Index(p, START, 0) == 0 && Index(p, END, 2) < 0
    ensures Parse(p) == [] && (|p| > MAX_FRAME_BYTES ==> StopsAt(P, T, frames, FrameTooLarge, decodable))
  {
    IncompleteFrame(p, rest);
  }

  // ... and a whole frame, taken or refused.
  lemma Ended(P: seq<Bytes>, T: nat, frames: seq<Bytes>, p: Bytes, rest: Bytes, decodable: Bytes -> bool)
    requires Taken(P, T, frames, p + rest, decodable) && Index(p, START, 0) == 0 && Index(p, END, 2) >= 0
    ensures var n := Index(p, END, 2) + 2;
            && n <= |p|
            && (if Publishable(p[..n], decodable) then Taken(P, T, frames + [p[..n]], p[n..] + rest, decodable)
                else StopsAt(P, T, frames, Refused, decodable))
  {
    var n := Index(p, END, 2) + 2;
    CompleteFrame(p, rest);
    MoveOver(frames, p[..n], Parse(p[n..] + rest));
  }

  // The buffer, the frames published and the verdict, if there is one already.
  datatype Scan = Scan(pending: Bytes, published: seq<Bytes>, verdict: Option<Outcome>)

  // What the loop over the buffer makes of it after one read.
  function Drained(p: Bytes, published: seq<Bytes>, decodable: Bytes -> bool): Scan
    decreases |p|
  {
    var start := Index(p, START, 0);
    if start < 0 then Scan(if |p| > 1 then p[|p| - 1..] else p, published, None)
    else
      var q := p[start..];
      var n := Index(q, END, 2) + 2;
      if n < 2 then Scan(q, published, if |q| > MAX_FRAME_BYTES then Some(FrameTooLarge) else None)
      else if !Publishable(q[..n], decodable) then Scan(q[n..], published, Some(Refused))
      else Drained(q[n..], published + [q[..n]], decodable)
  }

  predicate NoFrame(s: Bytes) {
    FirstLength(Trim(s)) == 0
  }

  // The buffer is in order, or the scan has stopped for a reason.
  ghost predicate InOrder(P: seq<Bytes>, T: nat, scan: Scan, rest: Bytes, decodable: Bytes -> bool) {
    if scan.verdict.None? then
      |scan.pending| <= MAX_FRAME_BYTES && NoFrame(scan.pending)
        && Taken(P, T, scan.published, scan.pending + rest, decodable)
    else StopsAt(P, T, scan.published, scan.verdict.value, decodable)
  }

  // The length of the whole frame that comes first in the buffer, if there is one.
  function Ready(p: Bytes): int {
    var start := Index(p, START, 0);
    if start < 0 then -1
    else
      var e := Index(p[start..], END, 2);
      if e < 0 then -1 else e + 2
  }

  // Where the loop ends: without a whole frame, or with one that is refused.
  lemma LoopEnds(P: seq<Bytes>, T: nat, frames: seq<Bytes>, p: Bytes, rest: Bytes, decodable: Bytes -> bool)
    requires Taken(P, T, frames, p + rest, decodable)
    requires Ready(p) >= 0 ==> !Publishable(p[Index(p, START, 0)..][..Ready(p)], decodable)
    ensures InOrder(P, T, Drained(p, frames, decodable), rest, decodable)
  {
    var start := Index(p, START, 0);
    if start < 0 {
      NoStart(P, T, frames, p, rest, decodable);
    } else {
      Skipped(P, T, frames, p, rest, decodable);
      if Ready(p) < 0 {
        NotEnded(P, T, frames, p[start..], rest, decodable);
      } else {
        Ended(P, T, frames, p[start..], rest, decodable);
      }
    }
  }

  // Where it goes on: past a whole frame that is taken.
  lemma LoopGoesOn(P: seq<Bytes>, T: nat, frames: seq<Bytes>, p: Bytes, rest: Bytes, decodable: Bytes -> bool)
    requires Taken(P, T, frames, p + rest, decodable)
    requires Ready(p) >= 0 && Publishable(p[Index(p, START, 0)..][..Ready(p)], decodable)
    ensures var q, n := p[Index(p, START, 0)..], Ready(p);
            && |q[n..]| < |p|
            && Drained(p, frames, decodable) == Drained(q[n..], frames + [q[..n]], decodable)
            && Taken(P, T, frames + [q[..n]], q[n..] + rest, decodable)
  {
    Skipped(P, T, frames, p, rest, decodable);
    Ended(P, T, frames, p[Index(p, START, 0)..], rest, decodable);
  }

  lemma {:induction false} DrainedInOrder(P: seq<Bytes>, T: nat, frames: seq<Bytes>, p: Bytes, rest: Bytes,
                                          decodable: Bytes -> bool)
    requires Taken(P, T, frames, p + rest, decodable)
    ensures InOrder(P, T, Drained(p, frames, decodable), rest, decodable)
    decreases |p|
  {
    var n := Ready(p);
    if n >= 0 && Publishable(p[Index(p, START, 0)..][..n], decodable) {
      var q := p[Index(p, START, 0)..];
      LoopGoesOn(P, T, frames, p, rest, decodable);
      DrainedInOrder(P, T, frames + [q[..n]], q[n..], rest, decodable);
    } else {
      LoopEnds(P, T, frames, p, rest, decodable);
    }
  }

  // The loop over the buffer after one read, calling back on each frame: the
  // callback appends to `before`.
  method Drain(buffer: Bytes, before: seq<Bytes>, decodable: Bytes -> bool)
    returns (pending: Bytes, published: seq<Bytes>, verdict: Option<Outcome>)
    ensures Scan(pending, published, verdict) == Drained(buffer, before, decodable)
  {
    pending, published := buffer, before;
    while true
      invariant Drained(buffer, before, decodable) == Drained(pending, published, decodable)
      decreases |pending|
    {
      var start := Index(pending, START, 0);
      if start < 0 {
        if |pending| > 1 {
          pending := pending[|pending| - 1..];
        }
        return pending, published, None;
      }
      var trimmed := pending[start..];
      var endOffset := Index(trimmed, END, 2);
      if endOffset < 0 {
        return trimmed, published, if |trimmed| > MAX_FRAME_BYTES then Some(FrameTooLarge) else None;
      }
      var end := endOffset + 2;
      var frame := trimmed[..end];
      if !Publishable(frame, decodable) {
        return trimmed[end..], published, Some(Refused);
      }
      pending := trimmed[end..];
      published := published + [frame];
    }
  }

  lemma StoppedThere(P: seq<Bytes>, T: nat, frames: seq<Bytes>, why: Outcome, decodable: Bytes -> bool)
    requires StopsAt(P, T, frames, why, decodable)
    ensures Accepted(P, decodable) == frames
  {
    AcceptedPrefix(P, |frames|, decodable);
  }

  // What the reads from the i-th on deliver, given that reading goes on until
  // a read reports the end or a failure.
  function ToCome(input: seq<Read>, i: nat): Bytes
    requires i <= |input|
    decreases |input| - i
  {
    if i == |input| || (i > 0 && !input[i - 1].status.More?) then [] else input[i].data + ToCome(input, i + 1)
  }

  lemma {:induction false} ToComeDelivered(input: seq<Read>, i: nat)
    requires i <= |input| && (i > 0 ==> input[i - 1].status.More?)
    ensures ToCome(input, i) == Delivered(input[i..])
    decreases |input| - i
  {
    if i < |input| {
      assert input[i..][0] == input[i] && input[i..][1..] == input[i + 1..];
      if input[i].status.More? {
        ToComeDelivered(input, i + 1);
      }
    }
  }

  function NextScan(scan: Scan, data: Bytes, decodable: Bytes -> bool): Scan {
    if scan.verdict.Some? || data == [] then scan else Drained(scan.pending + data, scan.published, decodable)
  }

  // The scan after the first i reads.
  function AfterReads(input: seq<Read>, i: nat, decodable: Bytes -> bool): Scan
    requires i <= |input|
  {
    if i == 0 then Scan([], [], None) else NextScan(AfterReads(input, i - 1, decodable), input[i - 1].data, decodable)
  }

  lemma {:induction false} ReadsInduction(inv: (Scan, nat) -> bool, input: seq<Read>, i: nat, decodable: Bytes -> bool)
    requires i <= |input| && inv(Scan([], [], None), 0)
    requires forall scan: Scan, k: nat :: k < i && inv(scan, k) ==> inv(NextScan(scan, input[k].data, decodable), k + 1)
    ensures inv(AfterReads(input, i, decodable), i)
  {
    if i > 0 {
      ReadsInduction(inv, input, i - 1, decodable);
    }
  }

  // Up to the last read, the scan is in order: between two reads the buffer never
  // holds a complete frame, and never more than 16 MiB.
  lemma AfterReadsInOrder(input: seq<Read>, i: nat, decodable: Bytes -> bool)
    requires i <= |input| && forall j :: 0 <= j < i - 1 ==> input[j].status.More?
    ensures InOrder(Parse(Delivered(input)), Tail(Delivered(input)), AfterReads(input, i, decodable),
                    ToCome(input, i), decodable)
  {
    StartInOrder(input, decodable);
    ReadsKeepOrder(Parse(Delivered(input)), Tail(Delivered(input)), input, i, decodable);
  }

  lemma StartInOrder(input: seq<Read>, decodable: Bytes -> bool)
    ensures InOrder(Parse(Delivered(input)), Tail(Delivered(input)), Scan([], [], None), ToCome(input, 0), decodable)
  {
    ToComeDelivered(input, 0);
    assert input[0..] == input && [] + ToCome(input, 0) == Delivered(input);
  }

  lemma ReadsKeepOrder(P: seq<Bytes>, T: nat, input: seq<Read>, i: nat, decodable: Bytes -> bool)
    requires i <= |input| && forall j :: 0 <= j < i - 1 ==> input[j].status.More?
    requires InOrder(P, T, Scan([], [], None), ToCome(input, 0), decodable)
    ensures InOrder(P, T, AfterReads(input, i, decodable), ToCome(input, i), decodable)
  {
    forall scan: Scan, k: nat | k < i && OrderAt(P, T, scan, input, k, decodable)
      ensures OrderAt(P, T, NextScan(scan, input[k].data, decodable), input, k + 1, decodable)
    {
      ReadKeepsOrder(P, T, scan, input, k, decodable);
    }
    ReadsInduction((scan: Scan, k: nat) => OrderAt(P, T, scan, input, k, decodable), input, i, decodable);
  }

  // In order after the first k reads.
  ghost predicate OrderAt(P: seq<Bytes>, T: nat, scan: Scan, input: seq<Read>, k: nat, decodable: Bytes -> bool) {
    k <= |input| && InOrder(P, T, scan, ToCome(input, k), decodable)
  }

  lemma ReadKeepsOrder(P: seq<Bytes>, T: nat, scan: Scan, input: seq<Read>, k: nat, decodable: Bytes -> bool)
    requires k < |input| && (k > 0 ==> input[k - 1].status.More?)
    requires OrderAt(P, T, scan, input, k, decodable)
    ensures OrderAt(P, T, NextScan(scan, input[k].data, decodable), input, k + 1, decodable)
  {
    OneMoreRead(P, T, scan, input[k].data, ToCome(input, k + 1), decodable);
  }

  lemma OneMoreRead(P: seq<Bytes>, T: nat, scan: Scan, data: Bytes, rest: Bytes, decodable: Bytes -> bool)
    requires InOrder(P, T, scan, data + rest, decodable)
    ensures InOrder(P, T, NextScan(scan, data, decodable), rest, decodable)
  {
    if scan.verdict.None? {
      assert scan.pending + (data + rest) == (scan.pending + data) + rest;
      if data == [] {
        assert scan.pending + data == scan.pending;
      } else {
        DrainedInOrder(P, T, scan.published, scan.pending + data, rest, decodable);
      }
    }
  }

  // The end of the loop: the context cancelled before the next read, the end of
  // the data, or a failed read.
  function AsOutcome(status: Status): Outcome {
    match status
    case More => Cancelled
    case EndOfFile => AtEnd
    case Failed => ReadFailed
  }

  // How the reads end: with the first that reports the end or a failure.
  function LastStatus(input: seq<Read>): Status {
    if input == [] then More else if input[0].status.More? then LastStatus(input[1..]) else input[0].status
  }

  lemma {:induction false} LastStatusAt(input: seq<Read>, i: nat)
    requires i <= |input| && forall j :: 0 <= j < i - 1 ==> input[j].status.More?
    requires i == |input| || (i > 0 && !input[i - 1].status.More?)
    ensures LastStatus(input) == if i == 0 then More else input[i - 1].status
  {
    if i > 1 {
      LastStatusAt(input[1..], i - 1);
    }
  }

  // Whatever the reads, the frames published are those of the whole-stream parse,
  // up to the first one that is refused; the reading ends by itself only if no
  // more than 16 MiB are left over.
  method ReadJpegSequence(input: seq<Read>, decodable: Bytes -> bool)
    returns (published: seq<Bytes>, outcome: Outcome)
    ensures published == Accepted(Parse(Delivered(input)), decodable)
    ensures if outcome.Cancelled? || outcome.AtEnd? || outcome.ReadFailed?
            then published == Parse(Delivered(input)) && Tail(Delivered(input)) <= 16 * 1024 * 1024
                 && outcome == AsOutcome(LastStatus(input))
            else StopsAt(Parse(Delivered(input)), Tail(Delivered(input)), published, outcome, decodable)
    ensures published <= Parse(Delivered(input))
            && forall f :: f in published ==> 0 < |f| <= 16 * 1024 * 1024 && decodable(f)
    ensures outcome == Refused ==>
              |published| < |Parse(Delivered(input))|
              && var f := Parse(Delivered(input))[|published|]; |f| == 0 || |f| > 16 * 1024 * 1024 || !decodable(f)
  {
    var i, verdict;
    i, published, verdict := ReadOn(input, decodable);
    AfterReadsInOrder(input, i, decodable);
    Finished(Parse(Delivered(input)), Tail(Delivered(input)), AfterReads(input, i, decodable), decodable);
    if verdict.None? {
      LastStatusAt(input, i);
    }
    outcome := if verdict.Some? then verdict.value else if i == 0 then Cancelled else AsOutcome(input[i - 1].status);
  }

  // A scan with nothing to come has published all that is accepted.
  lemma Finished(P: seq<Bytes>, T: nat, scan: Scan, decodable: Bytes -> bool)
    requires scan.verdict.None? ==> InOrder(P, T, scan, [], decodable)
    requires scan.verdict.Some? ==> StopsAt(P, T, scan.published, scan.verdict.value, decodable)
    ensures scan.published == Accepted(P, decodable)
    ensures scan.verdict.None? ==> scan.published == P && T <= MAX_FRAME_BYTES
    ensures scan.published <= P && forall f :: f in scan.published ==> Publishable(f, decodable)
  {
    if scan.verdict.None? {
      assert scan.pending + [] == scan.pending;
      AcceptedPrefix(P, |P|, decodable);
    } else {
      StoppedThere(P, T, scan.published, scan.verdict.value, decodable);
    }
  }

  // The loop over the reads, until one of them is the last or the scan stops.
  method ReadOn(input: seq<Read>, decodable: Bytes -> bool)
    returns (i: nat, published: seq<Bytes>, verdict: Option<Outcome>)
    ensures i <= |input| && published == AfterReads(input, i, decodable).published
            && verdict == AfterReads(input, i, decodable).verdict
    ensures forall j :: 0 <= j < i - 1 ==> input[j].status.More?
    ensures verdict.None? ==> i == |input| || (i > 0 && !input[i - 1].status.More?)
  {
    var pending: Bytes := [];
    i, published, verdict := 0, [], None;
    while verdict.None? && i < |input| && (i == 0 || input[i - 1].status.More?)
      invariant i <= |input| && Scan(pending, published, verdict) == AfterReads(input, i, decodable)
      invariant forall j :: 0 <= j < i - 1 ==> input[j].status.More?
    {
      if |input[i].data| > 0 {
        pending, published, verdict := Drain(pending + input[i].data, published, decodable);
      }
      i := i + 1;
    }
  }
}
