// readFirstJPEG (internal/cameraio/cameraio.go, same body in internal/web/cameras.go):
// a byte-at-a-time scanner with a byte limit, against the same reference parse.
module FirstJpeg {
  import opened Prelude
  import opened JpegStream

  // The buffer handed to reader.Read: no read returns more.
  const CHUNK: nat := 32 * 1024

  datatype ScanError = NotFound | ReadError

  // The bytes the scanner looks at when it finds no frame: whole reads, until
  // `limit` bytes have come or a read reports the end.
  function Scanned(input: seq<Read>, limit: int): Bytes
    decreases |input|
  {
    if limit <= 0 || input == [] then []
    else input[0].data +
         (if input[0].status.More? then Scanned(input[1..], limit - |input[0].data|) else [])
  }

  // Whether a failed read comes before the limit.
  predicate Fails(input: seq<Read>, limit: int)
    decreases |input|
  {
    limit > 0 && input != [] &&
    match input[0].status
    case Failed => true
    case EndOfFile => false
    case More => Fails(input[1..], limit - |input[0].data|)
  }

  function FirstFrame(s: Bytes): Option<Bytes> {
    var t := Trim(s);
    var n := FirstLength(t);
    if n == 0 then None else Some(t[..n])
  }

  // Where the first frame ends in the stream.
  function FirstEnd(s: Bytes): int {
    |s| - |Trim(s)| + FirstLength(Trim(s))
  }

  lemma FirstOfParse(s: Bytes)
    ensures FirstFrame(s).Some? <==> Parse(s) != []
    ensures FirstFrame(s).Some? ==> FirstFrame(s).value == Parse(s)[0]
  {
    var t := Trim(s);
    var n := FirstLength(t);
    assert n > 0 ==> Parse(s) == [t[..n]] + Parse(t[n..]);
  }

  // ---- The scanner ----

  // The scanner's variables after looking at `seen` without finding a whole frame.
  ghost predicate ScanState(seen: Bytes, started: bool, out: Bytes, previous: Byte) {
    && previous == (if seen == [] then 0 else seen[|seen| - 1])
    && started == (Index(seen, START, 0) >= 0)
    && (started ==> out == Trim(seen))
    && FirstLength(Trim(seen)) == 0
  }

  method ScanByte(started: bool, out: Bytes, previous: Byte, current: Byte, ghost seen: Bytes)
    returns (started': bool, out': Bytes, found: bool)
    requires ScanState(seen, started, out, previous) && (!started ==> out == [])
    ensures found ==> FirstFrame(seen + [current]) == Some(out')
    ensures !found ==> ScanState(seen + [current], started', out', current) && (!started' ==> out' == [])
  {
    ghost var s := seen + [current];
    started', out', found := started, out, false;
    assert forall j: nat, c: Byte :: j + 1 < |seen| ==> (MarkerAt(s, j, c) <==> MarkerAt(seen, j, c));
    if !started {
      if previous == 0xff && current == 0xd8 {
        assert MarkerAt(s, |seen| - 1, START);
        started', out' := true, [0xff, 0xd8];
        assert Trim(s) == out';
      } else {
        assert Index(s, START, 0) < 0;
      }
    } else {
      var a := Index(seen, START, 0);
      assert Index(s, START, 0) == a;
      out' := out + [current];
      assert out' == Trim(s);
      StillNoEnd(out, current);
      if previous == 0xff && current == 0xd9 {
        found := true;
        assert out'[..|out'|] == out';
      }
    }
  }

  lemma StillNoEnd(out: Bytes, current: Byte)
    requires MarkerAt(out, 0, START) && Index(out, END, 2) < 0
    ensures var e := Index(out + [current], END, 2);
            if out[|out| - 1] == 0xff && current == 0xd9 then e == |out| - 1 else e < 0
  {
    var t := out + [current];
    assert forall j: nat :: j + 1 < |out| ==> (MarkerAt(t, j, END) <==> MarkerAt(out, j, END));
    if out[|out| - 1] == 0xff && current == 0xd9 {
      assert |out| > 2;
      assert MarkerAt(t, |out| - 1, END);
    }
  }

  // A complete frame stays the first frame, whatever follows.
  lemma FirstFrameStays(s: Bytes, rest: Bytes)
    requires FirstFrame(s).Some?
    ensures FirstFrame(s + rest) == FirstFrame(s) && FirstEnd(s + rest) == FirstEnd(s) <= |s|
  {
    var a := Index(s, START, 0);
    IndexInPrefix(s, rest, START, 0);
    assert Trim(s + rest) == s[a..] + rest;
    HeadStays(s[a..], rest);
  }

  lemma HeadStays(t: Bytes, rest: Bytes)
    requires Index(t, END, 2) >= 0
    ensures FirstLength(t + rest) == FirstLength(t) <= |t|
    ensures (t + rest)[..FirstLength(t)] == t[..FirstLength(t)]
  {
    IndexInPrefix(t, rest, END, 2);
  }

  // The loop over the bytes of one read.
  method ScanRead(data: Bytes, started: bool, out: Bytes, previous: Byte, ghost seen: Bytes)
    returns (started': bool, out': Bytes, previous': Byte, found: bool)
    requires ScanState(seen, started, out, previous) && (!started ==> out == [])
    ensures found ==> FirstFrame(seen + data) == Some(out')
    ensures !found ==> ScanState(seen + data, started', out', previous') && (!started' ==> out' == [])
  {
    started', out', previous', found := started, out, previous, false;
    ghost var s := seen;
    Reached(seen, data, 0);
    for k := 0 to |data|
      invariant !found && s == Upto(seen, data, k)
      invariant ScanState(s, started', out', previous') && (!started' ==> out' == [])
    {
      Reached(seen, data, k);
      started', out', found := ScanByte(started', out', previous', data[k], s);
      s := s + [data[k]];
      previous' := data[k];
      if found {
        FirstFrameStays(s, data[k + 1..]);
        return;
      }
    }
    Reached(seen, data, |data|);
  }

  ghost function Upto(seen: Bytes, data: Bytes, k: nat): Bytes
    requires k <= |data|
  {
    seen + data[..k]
  }

  lemma Reached(seen: Bytes, data: Bytes, k: nat)
    requires k <= |data|
    ensures Upto(seen, data, 0) == seen && Upto(seen, data, |data|) == seen + data
    ensures k < |data| ==> Upto(seen, data, k) + [data[k]] == Upto(seen, data, k + 1)
    ensures k < |data| ==> (Upto(seen, data, k) + [data[k]]) + data[k + 1..] == seen + data
  {
  }

  // Before a read: `seen` has been looked at, and the rest of the scan is the
  // scan of the reads left, with what is left of the limit.
  ghost predicate Before(input: seq<Read>, limit: int, i: nat, total: int, seen: Bytes) {
    && i <= |input|
    && Scanned(input, limit) == seen + Scanned(input[i..], limit - total)
    && Fails(input, limit) == Fails(input[i..], limit - total)
  }

  lemma AfterRead(input: seq<Read>, limit: int, i: nat, total: int, seen: Bytes)
    requires Before(input, limit, i, total, seen) && i < |input| && total < limit
    ensures var read := input[i];
            && (read.status.More? ==> Before(input, limit, i + 1, total + |read.data|, seen + read.data))
            && (!read.status.More? ==>
                  Scanned(input, limit) == seen + read.data && Fails(input, limit) == read.status.Failed?)
            && seen + read.data <= Scanned(input, limit)
  {
    if input[i].status.More? {
      AfterOneMore(input, limit, i, total, seen);
    } else {
      AfterTheLast(input, limit, i, total, seen);
    }
  }

  lemma AfterOneMore(input: seq<Read>, limit: int, i: nat, total: int, seen: Bytes)
    requires Before(input, limit, i, total, seen) && i < |input| && total < limit && input[i].status.More?
    ensures Before(input, limit, i + 1, total + |input[i].data|, seen + input[i].data)
    ensures seen + input[i].data <= Scanned(input, limit)
  {
    var data, now := input[i].data, limit - total;
    var left := limit - (total + |data|);
    ScannedMore(input, i, now, left);
    var all, tail, rest := Scanned(input, limit), Scanned(input[i..], now), Scanned(input[i + 1..], left);
    Regroup(all, seen, tail, data, rest);
  }

  lemma ScannedMore(input: seq<Read>, i: nat, left: int, next: int)
    requires i < |input| && left > 0 && input[i].status.More? && next == left - |input[i].data|
    ensures Scanned(input[i..], left) == input[i].data + Scanned(input[i + 1..], next)
    ensures Fails(input[i..], left) == Fails(input[i + 1..], next)
  {
    UnfoldScan(input[i..], left);
    assert input[i..][1..] == input[i + 1..] && input[i..][0] == input[i];
  }

  // One read of a scan.
  lemma UnfoldScan(input: seq<Read>, left: int)
    requires input != [] && left > 0
    ensures Scanned(input, left) == input[0].data + (if input[0].status.More?
                                                     then Scanned(input[1..], left - |input[0].data|) else [])
    ensures Fails(input, left) == (input[0].status.Failed?
                                   || (input[0].status.More? && Fails(input[1..], left - |input[0].data|)))
  {
  }

  lemma Regroup(all: Bytes, seen: Bytes, tail: Bytes, data: Bytes, rest: Bytes)
    requires all == seen + tail && tail == data + rest
    ensures all == (seen + data) + rest && seen + data <= all
  {
  }

  lemma AfterTheLast(input: seq<Read>, limit: int, i: nat, total: int, seen: Bytes)
    requires Before(input, limit, i, total, seen) && i < |input| && total < limit && !input[i].status.More?
    ensures Scanned(input, limit) == seen + input[i].data && Fails(input, limit) == input[i].status.Failed?
  {
    ScannedNext(input, i, limit - total);
    assert input[i].data + [] == input[i].data;
  }

  lemma ScannedNext(input: seq<Read>, i: nat, left: int)
    requires i < |input| && left > 0
    ensures var read := input[i];
            && Scanned(input[i..], left)
               == read.data + (if read.status.More? then Scanned(input[i + 1..], left - |read.data|) else [])
            && Fails(input[i..], left) == (read.status.Failed?
                                           || (read.status.More? && Fails(input[i + 1..], left - |read.data|)))
  {
    assert input[i..][1..] == input[i + 1..];
  }

  lemma ScanFinished(input: seq<Read>, limit: int, i: nat, total: int, seen: Bytes)
    requires Before(input, limit, i, total, seen) && (limit <= total || i == |input|)
    ensures Scanned(input, limit) == seen && !Fails(input, limit)
  {
  }

  datatype Scanner = Scanner(started: bool, out: Bytes, previous: Byte)

  // Between two reads: what has been read holds no whole frame.
  ghost predicate Between(input: seq<Read>, limit: int, i: nat, total: int, sc: Scanner, seen: Bytes) {
    && Before(input, limit, i, total, seen)
    && ScanState(seen, sc.started, sc.out, sc.previous) && (!sc.started ==> sc.out == [])
  }

  method TakeRead(input: seq<Read>, limit: int, i: nat, total: int, sc: Scanner, ghost seen: Bytes)
    returns (sc': Scanner, found: bool)
    requires Between(input, limit, i, total, sc, seen) && i < |input| && total < limit
    ensures found ==> FirstFrame(Scanned(input, limit)) == Some(sc'.out)
    ensures !found && input[i].status.More? ==>
              Between(input, limit, i + 1, total + |input[i].data|, sc', seen + input[i].data)
    ensures !found && !input[i].status.More? ==>
              FirstFrame(Scanned(input, limit)).None? && Fails(input, limit) == input[i].status.Failed?
  {
    AfterRead(input, limit, i, total, seen);
    var started, out, previous;
    started, out, previous, found := ScanRead(input[i].data, sc.started, sc.out, sc.previous, seen);
    sc' := Scanner(started, out, previous);
    if found {
      ghost var s := seen + input[i].data;
      FirstFrameStays(s, Scanned(input, limit)[|s|..]);
      assert s + Scanned(input, limit)[|s|..] == Scanned(input, limit);
    }
  }

  method ReadFirstJpeg(input: seq<Read>, limit: int) returns (r: Result<Bytes, ScanError>)
    ensures FirstFrame(Scanned(input, limit)).Some? ==> r == Ok(FirstFrame(Scanned(input, limit)).value)
    ensures FirstFrame(Scanned(input, limit)).None? ==>
              r == Err(if Fails(input, limit) then ReadError else NotFound)
  {
    var sc := Scanner(false, [], 0);
    var total, i := 0, 0;
    ghost var seen: Bytes := [];
    BeforeFirst(input, limit);
    while total < limit && i < |input|
      invariant Between(input, limit, i, total, sc, seen)
      decreases |input| - i
    {
      var found;
      sc, found := TakeRead(input, limit, i, total, sc, seen);
      if found {
        return Ok(sc.out);
      }
      if !input[i].status.More? {
        return Err(if input[i].status.EndOfFile? then NotFound else ReadError);
      }
      total, seen := total + |input[i].data|, seen + input[i].data;
      i := i + 1;
    }
    NothingFound(input, limit, i, total, sc, seen);
    return Err(NotFound);
  }

  lemma NothingFound(input: seq<Read>, limit: int, i: nat, total: int, sc: Scanner, seen: Bytes)
    requires Between(input, limit, i, total, sc, seen) && (limit <= total || i == |input|)
    ensures FirstFrame(Scanned(input, limit)).None? && !Fails(input, limit)
  {
    ScanFinished(input, limit, i, total, seen);
  }

  lemma BeforeFirst(input: seq<Read>, limit: int)
    ensures Between(input, limit, 0, 0, Scanner(false, [], 0), [])
  {
    assert input[0..] == input && [] + Scanned(input, limit) == Scanned(input, limit);
  }

  // ---- What the limit and the chunking do ----

  lemma {:induction false} ScannedPrefix(input: seq<Read>, limit: int)
    ensures Scanned(input, limit) <= Delivered(input)
    ensures Scanned(input, limit) == Delivered(input) || |Scanned(input, limit)| >= limit
    decreases |input|
  {
    if limit > 0 && input != [] && input[0].status.More? {
      ScannedPrefix(input[1..], limit - |input[0].data|);
    }
  }

  // The scanner never returns anything but the first frame of the stream, and
  // returns it exactly when the frame ends among the bytes looked at: always
  // when it ends within the limit.
  lemma ScannerRefinesParse(input: seq<Read>, limit: int)
    ensures var all := Delivered(input);
            && (FirstFrame(Scanned(input, limit)).Some? <==>
                  FirstFrame(all).Some? && FirstEnd(all) <= |Scanned(input, limit)|)
            && (FirstFrame(Scanned(input, limit)).Some? ==>
                  FirstFrame(Scanned(input, limit)) == FirstFrame(all))
            && (FirstFrame(all).Some? && FirstEnd(all) <= limit ==>
                  FirstFrame(Scanned(input, limit)) == FirstFrame(all))
  {
    ScannedPrefix(input, limit);
    var all, s := Delivered(input), Scanned(input, limit);
    var rest := all[|s|..];
    assert all == s + rest;
    if FirstFrame(s).Some? {
      FirstFrameStays(s, rest);
    } else if FirstFrame(all).Some? && FirstEnd(all) <= |s| {
      FrameInPrefix(s, rest);
    }
  }

  // A frame of the stream that ends inside a prefix is found in the prefix.
  lemma FrameInPrefix(s: Bytes, rest: Bytes)
    requires FirstFrame(s + rest).Some? && FirstEnd(s + rest) <= |s|
    ensures FirstFrame(s).Some?
  {
    var all := s + rest;
    var a := Index(all, START, 0);
    var e := Index(all[a..], END, 2);
    assert MarkerAt(s, a, START);
    var b := Index(s, START, 0);
    assert MarkerAt(all, b, START);
    assert a == b;
    assert MarkerAt(s[a..], e, END);
  }

  // Reads of at most CHUNK bytes, none of them failing.
  ghost predicate Chunking(input: seq<Read>, all: Bytes) {
    && Delivered(input) == all
    && forall r :: r in input ==> |r.data| <= CHUNK && r.status.More?
  }

  lemma {:induction false} ScannedBound(input: seq<Read>, limit: int)
    requires forall r :: r in input ==> |r.data| <= CHUNK
    ensures limit > 0 ==> |Scanned(input, limit)| < limit + CHUNK
    decreases |input|
  {
    if limit > 0 && input != [] && input[0].status.More? {
      ScannedBound(input[1..], limit - |input[0].data|);
    }
  }

  // The reads that bring `s` one byte at a time, and then `later`.
  function OneByOne(s: Bytes, later: seq<Read>): seq<Read> {
    if s == [] then later else [Read([s[0]], More)] + OneByOne(s[1..], later)
  }

  lemma {:induction false} OneByOneDelivers(s: Bytes, later: seq<Read>)
    requires forall r :: r in later ==> |r.data| <= CHUNK && r.status.More?
    ensures Chunking(OneByOne(s, later), s + Delivered(later))
  {
    if s != [] {
      OneByOneDelivers(s[1..], later);
      var x := OneByOne(s, later);
      assert x[1..] == OneByOne(s[1..], later);
      HeadAndTail(s, Delivered(later));
      assert forall r :: r in x ==> r == x[0] || r in x[1..];
    } else {
      assert [] + Delivered(later) == Delivered(later);
    }
  }

  lemma {:induction false} OneByOneScanned(s: Bytes, later: seq<Read>, limit: int)
    requires |s| <= limit
    ensures Scanned(OneByOne(s, later), limit) == s + Scanned(later, limit - |s|)
  {
    if s != [] {
      var x := OneByOne(s, later);
      OneByOneScanned(s[1..], later, limit - 1);
      assert x[1..] == OneByOne(s[1..], later);
      assert Scanned(x, limit) == [s[0]] + Scanned(x[1..], limit - 1);
      HeadAndTail(s, Scanned(later, limit - |s|));
    }
  }

  lemma HeadAndTail(s: Bytes, t: Bytes)
    requires s != []
    ensures [s[0]] + (s[1..] + t) == s + t
  {
  }

  lemma {:induction false} OneByOneStops(s: Bytes, limit: int)
    requires 0 <= limit <= |s|
    ensures |Scanned(OneByOne(s, []), limit)| == limit
  {
    if limit > 0 {
      OneByOneStops(s[1..], limit - 1);
      assert OneByOne(s, [])[1..] == OneByOne(s[1..], []);
    }
  }

  // Two ways of cutting the same stream into reads give different answers
  // exactly when the first frame ends past the limit, but by less than one read.
  lemma ChunkingMattersIff(all: Bytes, limit: int)
    requires limit > 0 && FirstFrame(all).Some?
    ensures (exists x, y :: Chunking(x, all) && Chunking(y, all)
                            && FirstFrame(Scanned(x, limit)) != FirstFrame(Scanned(y, limit)))
            <==> limit < FirstEnd(all) < limit + CHUNK
  {
    var e := FirstEnd(all);
    if limit < e < limit + CHUNK {
      AnswersDiffer(all, limit);
    } else {
      forall x | Chunking(x, all)
        ensures FirstFrame(Scanned(x, limit)) == if e <= limit then FirstFrame(all) else None
      {
        ScannerRefinesParse(x, limit);
        ScannedBound(x, limit);
      }
    }
  }

  lemma AnswersDiffer(all: Bytes, limit: int)
    requires FirstFrame(all).Some? && 0 < limit < FirstEnd(all) < limit + CHUNK
    ensures exists x, y :: Chunking(x, all) && Chunking(y, all)
                           && FirstFrame(Scanned(x, limit)) != FirstFrame(Scanned(y, limit))
  {
    var x, y := CutAt(all, limit - 1, FirstEnd(all)), OneByOne(all, []);
    CutAtScanned(all, limit - 1, FirstEnd(all), limit);
    ScannerRefinesParse(x, limit);
    OneByOneDelivers(all, []);
    assert all + Delivered([]) == all;
    OneByOneStops(all, limit);
    ScannerRefinesParse(y, limit);
  }

  // Byte by byte up to a, then a..b in one read, then byte by byte again.
  function CutAt(all: Bytes, a: nat, b: nat): seq<Read>
    requires a <= b <= |all|
  {
    OneByOne(all[..a], [Read(all[a..b], More)] + OneByOne(all[b..], []))
  }

  lemma CutAtScanned(all: Bytes, a: nat, b: nat, limit: int)
    requires a < limit <= b <= |all| && b - a <= CHUNK
    ensures Chunking(CutAt(all, a, b), all)
    ensures |Scanned(CutAt(all, a, b), limit)| >= b
  {
    var later := [Read(all[a..b], More)] + OneByOne(all[b..], []);
    assert later[1..] == OneByOne(all[b..], []);
    OneByOneDelivers(all[b..], []);
    assert Delivered(later) == all[a..b] + (all[b..] + []);
    OneByOneDelivers(all[..a], later);
    assert all[..a] + (all[a..b] + (all[b..] + [])) == all;
    OneByOneScanned(all[..a], later, limit);
    assert all[a..b] <= Scanned(later, limit - a);
  }
}
