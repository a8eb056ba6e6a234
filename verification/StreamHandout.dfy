// What a caller of the pool is handed, and when an idle stream is released, on the
// fields of the state and over whole runs (internal/web/camera_stream_pool.go).
module StreamHandout {
  import opened Prelude
  import opened StreamPool

  // A stream captures the camera for the purpose: same kind, same settings, and all
  // uses of a host camera share one purpose.
  predicate Captures(stream: Stream, camera: Camera, purpose: Purpose) {
    && stream.key.kind == camera.kind && stream.key.settings == camera.settings
    && stream.key.purpose == if camera.kind == Local then HostUsb else purpose
  }

  // Network cameras watched for recognition have a map of their own.
  predicate ForRecognition(camera: Camera, purpose: Purpose) {
    camera.kind != Local && purpose == Recognition
  }

  function MapOf(s: State, camera: Camera, purpose: Purpose): map<nat, nat> {
    if ForRecognition(camera, purpose) then s.recognition else s.preview
  }

  // Nothing but the stream n, the map entry of the camera and the bookkeeping of
  // the call has changed.
  predicate OnlyFor(s: State, t: State, camera: Camera, purpose: Purpose, n: nat) {
    && (if ForRecognition(camera, purpose) then t.preview == s.preview else t.recognition == s.recognition)
    && MapOf(t, camera, purpose) == MapOf(s, camera, purpose)[camera.id := n]
    && |s.streams| <= |t.streams|
    && forall m :: 0 <= m < |s.streams| && m != n ==> t.streams[m] == s.streams[m]
  }

  // The current stream is handed out again.
  predicate HandsOutAgain(s: State, t: State, n: nat, at: int) {
    && n < |s.streams| == |t.streams| && t.stops == s.stops && t.launches == s.launches
    && t.recognition == s.recognition && t.preview == s.preview
    && t.streams[n] == s.streams[n].(lastUsedAt := t.streams[n].lastUsedAt)
    && (s.streams[n].key.purpose == Recognition ==> t.streams[n].lastUsedAt == Some(at))
  }

  // A new stream is made, to be launched once the old entry is stopped.
  predicate MakesNew(s: State, t: State, camera: Camera, purpose: Purpose, n: nat, at: int) {
    && n == |s.streams| && |t.streams| == n + 1
    && !t.streams[n].launched && !t.streams[n].stopped && t.streams[n].lastUsedAt == Some(at)
    && n in t.launches && t.launches == s.launches[n := t.launches[n]]
    && if camera.id in MapOf(s, camera, purpose)
       then t.stops == s.stops[MapOf(s, camera, purpose)[camera.id] := t.launches[n]] else t.stops == s.stops
  }

  // The camera's map entry captures it for the purpose.
  predicate EntryFits(s: State, camera: Camera, purpose: Purpose) {
    var pool := MapOf(s, camera, purpose);
    camera.id in pool && pool[camera.id] < |s.streams| && Captures(s.streams[pool[camera.id]], camera, purpose)
  }

  // The stream n is handed out: the one of the map entry exactly if that captures the
  // camera for the purpose, and a new one otherwise, which takes its place. It captures
  // the camera, runs and is the map entry.
  predicate HandsOut(s: State, t: State, camera: Camera, purpose: Purpose, n: nat, at: int) {
    && n < |t.streams| && OnlyFor(s, t, camera, purpose, n)
    && t.streams[n].camera == camera.id && !t.streams[n].stopped && Captures(t.streams[n], camera, purpose)
    && if EntryFits(s, camera, purpose)
       then n == MapOf(s, camera, purpose)[camera.id] && HandsOutAgain(s, t, n, at)
       else MakesNew(s, t, camera, purpose, n, at)
  }

  // In every run, a camera that can stream is handed a stream like this.
  lemma EnsureHandsOut(steps: seq<Step>, camera: Camera, purpose: Purpose, at: int)
    requires camera.kind == Local || (camera.kind == Network && camera.streaming)
    ensures var s, t := Run(Empty(), steps), Run(Empty(), steps + [Ensure(camera, purpose, at)]);
            var handed := Handed(s, camera, purpose);
            handed.Some? && HandsOut(s, t, camera, purpose, handed.value, at)
  {
    RunOne(steps, Ensure(camera, purpose, at));
    RunKeepsValid(steps);
    StepHandsOut(Run(Empty(), steps), camera, purpose, at);
  }

  lemma StepHandsOut(s: State, camera: Camera, purpose: Purpose, at: int)
    requires Valid(s) && (camera.kind == Local || (camera.kind == Network && camera.streaming))
    ensures Handed(s, camera, purpose).Some?
    ensures HandsOut(s, After(s, Ensure(camera, purpose, at)), camera, purpose, Handed(s, camera, purpose).value, at)
  {
    var n := Handed(s, camera, purpose).value;
    if EntryFits(s, camera, purpose) {
      EntryHandedOut(s, camera, purpose, at, n);
    } else {
      NewHandedOut(s, camera, purpose, at, n);
    }
  }

  lemma EntryHandedOut(s: State, camera: Camera, purpose: Purpose, at: int, n: nat)
    requires Valid(s) && (camera.kind == Local || (camera.kind == Network && camera.streaming))
    requires EntryFits(s, camera, purpose) && Handed(s, camera, purpose) == Some(n)
    ensures HandsOut(s, After(s, Ensure(camera, purpose, at)), camera, purpose, n, at)
  {
    assert StreamValid(s, n);
    assert MapOf(s, camera, purpose)[camera.id := n] == MapOf(s, camera, purpose);
  }

  lemma NewHandedOut(s: State, camera: Camera, purpose: Purpose, at: int, n: nat)
    requires Valid(s) && (camera.kind == Local || (camera.kind == Network && camera.streaming))
    requires !EntryFits(s, camera, purpose) && Handed(s, camera, purpose) == Some(n)
    ensures HandsOut(s, After(s, Ensure(camera, purpose, at)), camera, purpose, n, at)
  {
    var t := After(s, Ensure(camera, purpose, at));
    assert n == |s.streams| && t.streams == s.streams + [t.streams[n]];
  }

  // A camera that cannot stream gets nothing, and nothing changes.
  lemma NothingToHandOut(steps: seq<Step>, camera: Camera, purpose: Purpose, at: int)
    requires !(camera.kind == Local || (camera.kind == Network && camera.streaming))
    ensures Handed(Run(Empty(), steps), camera, purpose).None?
    ensures Run(Empty(), steps + [Ensure(camera, purpose, at)]) == Run(Empty(), steps)
  {
    RunOne(steps, Ensure(camera, purpose, at));
  }

  // ---- Idle release ----

  // When the stream was handed out last.
  function LastHandout(steps: seq<Step>, n: nat): Option<int> {
    if steps == [] then None
    else
      var before, step := steps[..|steps| - 1], steps[|steps| - 1];
      if step.Ensure? && Handed(Run(Empty(), before), step.camera, step.purpose) == Some(n) then Some(step.at)
      else LastHandout(before, n)
  }

  lemma LastUseNext(s: State, step: Step, n: nat)
    requires Valid(s) && n < |After(s, step).streams| && After(s, step).streams[n].key.purpose == Recognition
    ensures var use := After(s, step).streams[n].lastUsedAt;
            if step.Ensure? && Handed(s, step.camera, step.purpose) == Some(n) then use == Some(step.at)
            else n < |s.streams| && use == s.streams[n].lastUsedAt && s.streams[n].key.purpose == Recognition
  {
  }

  lemma {:induction false} LastUseIsHandout(steps: seq<Step>, n: nat)
    requires var s := Run(Empty(), steps); n < |s.streams| && s.streams[n].key.purpose == Recognition
    ensures Run(Empty(), steps).streams[n].lastUsedAt == LastHandout(steps, n)
  {
    if steps != [] {
      var before, step := steps[..|steps| - 1], steps[|steps| - 1];
      RunKeepsValid(before);
      LastUseNext(Run(Empty(), before), step, n);
      if !(step.Ensure? && Handed(Run(Empty(), before), step.camera, step.purpose) == Some(n)) {
        LastUseIsHandout(before, n);
      }
    }
  }

  // In every run, an idle check takes the camera's stream out of the recognition map
  // exactly if it is the stream checked and was handed out for the last time five
  // seconds before or earlier; it is then to be stopped. Otherwise nothing changes.
  lemma IdleReleasedIff(steps: seq<Step>, c: nat, n: nat, tick: int, at: int)
    ensures var s, t := Run(Empty(), steps), Run(Empty(), steps + [IdleTick(c, n, tick, at)]);
            if c in s.recognition && s.recognition[c] == n
               && LastHandout(steps, n).Some? && tick - LastHandout(steps, n).value >= 5000
            then t.recognition == s.recognition - {c} && t.preview == s.preview && n in t.stops
                 && t.streams == s.streams
            else t == s
  {
    var s := Run(Empty(), steps);
    RunOne(steps, IdleTick(c, n, tick, at));
    RunKeepsValid(steps);
    if c in s.recognition && s.recognition[c] == n {
      LastUseIsHandout(steps, n);
    }
  }
}
