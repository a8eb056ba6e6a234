// The pool of camera streams (internal/web/camera_stream_pool.go): two maps from
// cameras to streams, edited under one lock, and calls that stop and launch
// streams after giving the lock back. A state holds the maps, all streams ever
// made and what each past caller still has to do; every step is one lock section
// or one action after it, in any interleaving.
module StreamPool {
  import opened Prelude

  const IDLE_LIMIT := 5000

  datatype Purpose = Recognition | Preview | HostUsb

  datatype Kind = Local | Network | OtherKind

  // `streaming` says whether a network camera's protocol and address allow a
  // continuous stream; `settings` stands for all fields that enter the key.
  datatype Camera = Camera(id: nat, kind: Kind, streaming: bool, settings: string)

  datatype Key = Key(purpose: Purpose, kind: Kind, settings: string)

  datatype Stream = Stream(camera: nat, key: Key, lastUsedAt: Option<int>, launched: bool, stopped: bool)

  // `stops` holds the streams that a call has taken out of the maps and will stop,
  // `launches` those that a call has made and will launch, each with the number of
  // that call; a call launches only after its stops.
  datatype State = State(
    recognition: map<nat, nat>, preview: map<nat, nat>, streams: seq<Stream>,
    stops: map<nat, nat>, launches: map<nat, nat>, calls: nat)

  datatype Step =
    | Ensure(camera: Camera, purpose: Purpose, at: int)
    | IdleTick(cameraId: nat, stream: nat, tick: int, at: int)
    | Release(cameraId: nat, at: int)
    | StopAll(at: int)
    | StopNext(stream: nat, at: int)
    | Launch(stream: nat, at: int)

  predicate Continuous(camera: Camera) {
    camera.kind.Local? || (camera.kind.Network? && camera.streaming)
  }

  // All uses of a host camera share one capture.
  function EffectivePurpose(camera: Camera, purpose: Purpose): Purpose {
    if camera.kind.Local? then HostUsb else purpose
  }

  function KeyOf(camera: Camera, purpose: Purpose): Key {
    Key(EffectivePurpose(camera, purpose), camera.kind, camera.settings)
  }

  function PoolOf(s: State, purpose: Purpose): map<nat, nat> {
    if purpose.Recognition? then s.recognition else s.preview
  }

  function WithPool(s: State, purpose: Purpose, pool: map<nat, nat>): State {
    if purpose.Recognition? then s.(recognition := pool) else s.(preview := pool)
  }

  function IdleFor(stream: Stream, now: int): int {
    if !stream.key.purpose.Recognition? || stream.lastUsedAt.None? || now < stream.lastUsedAt.value then 0
    else now - stream.lastUsedAt.value
  }

  function Touched(stream: Stream, at: int): Stream {
    if stream.key.purpose.Recognition? then stream.(lastUsedAt := Some(at)) else stream
  }

  // ---- Steps ----

  predicate Reuses(s: State, camera: Camera, purpose: Purpose) {
    var pool := PoolOf(s, EffectivePurpose(camera, purpose));
    camera.id in pool && pool[camera.id] < |s.streams| && s.streams[pool[camera.id]].key == KeyOf(camera, purpose)
  }

  // The stream a caller is given.
  function Handed(s: State, camera: Camera, purpose: Purpose): Option<nat> {
    if !Continuous(camera) then None
    else if Reuses(s, camera, purpose) then Some(PoolOf(s, EffectivePurpose(camera, purpose))[camera.id])
    else Some(|s.streams|)
  }

  function AfterEnsure(s: State, camera: Camera, purpose: Purpose, at: int): State {
    var effective := EffectivePurpose(camera, purpose);
    var pool := PoolOf(s, effective);
    if !Continuous(camera) then s
    else if Reuses(s, camera, purpose) then
      s.(streams := s.streams[pool[camera.id] := Touched(s.streams[pool[camera.id]], at)])
    else
      var n := |s.streams|;
      WithPool(s, effective, pool[camera.id := n]).(
        streams := s.streams + [Stream(camera.id, KeyOf(camera, purpose), Some(at), false, false)],
        stops := if camera.id in pool then s.stops[pool[camera.id] := s.calls] else s.stops,
        launches := s.launches[n := s.calls],
        calls := s.calls + 1)
  }

  predicate IdleReleases(s: State, cameraId: nat, stream: nat, tick: int) {
    && stream < |s.streams| && s.streams[stream].key.purpose.Recognition?
    && cameraId in s.recognition && s.recognition[cameraId] == stream
    && IdleFor(s.streams[stream], tick) >= IDLE_LIMIT
  }

  function Entries(s: State): set<nat> {
    s.recognition.Values + s.preview.Values
  }

  function ReleasedBy(s: State, cameraId: nat): set<nat> {
    (if cameraId in s.recognition then {s.recognition[cameraId]} else {})
    + (if cameraId in s.preview then {s.preview[cameraId]} else {})
  }

  // Takes streams out of the maps and leaves stopping them to the call.
  function Retire(s: State, recognition: map<nat, nat>, preview: map<nat, nat>, gone: set<nat>): State {
    s.(recognition := recognition, preview := preview, calls := s.calls + 1,
       stops := s.stops + map n | n in gone :: s.calls)
  }

  predicate MayLaunch(s: State, n: nat) {
    n in s.launches && n < |s.streams| && s.launches[n] !in s.stops.Values
  }

  function After(s: State, step: Step): State {
    match step
    case Ensure(camera, purpose, at) => AfterEnsure(s, camera, purpose, at)
    case IdleTick(cameraId, stream, tick, _) =>
      if IdleReleases(s, cameraId, stream, tick) then Retire(s, s.recognition - {cameraId}, s.preview, {stream}) else s
    case Release(cameraId, _) =>
      Retire(s, s.recognition - {cameraId}, s.preview - {cameraId}, ReleasedBy(s, cameraId))
    case StopAll(_) => Retire(s, map[], map[], Entries(s))
    case StopNext(n, _) =>
      if n in s.stops && n < |s.streams|
      then s.(streams := s.streams[n := s.streams[n].(stopped := true)], stops := s.stops - {n})
      else s
    case Launch(n, _) =>
      if MayLaunch(s, n)
      then s.(streams := s.streams[n := s.streams[n].(launched := true)], launches := s.launches - {n})
      else s
  }

  function Run(s: State, steps: seq<Step>): State {
    if steps == [] then s else After(Run(s, steps[..|steps| - 1]), steps[|steps| - 1])
  }

  function Empty(): State {
    State(map[], map[], [], map[], map[], 0)
  }

  // ---- Every stream is in a map or about to be stopped ----

  predicate Entry(s: State, n: nat) {
    n < |s.streams| &&
    var pool := PoolOf(s, s.streams[n].key.purpose);
    s.streams[n].camera in pool && pool[s.streams[n].camera] == n
  }

  ghost predicate PoolValid(pool: map<nat, nat>, streams: seq<Stream>, recognition: bool) {
    forall c :: c in pool ==>
      pool[c] < |streams| && streams[pool[c]].camera == c && streams[pool[c]].key.purpose.Recognition? == recognition
  }

  ghost predicate MapsValid(s: State) {
    PoolValid(s.recognition, s.streams, true) && PoolValid(s.preview, s.streams, false)
  }

  // A stream that is not stopped is the map entry of its camera, or a call has
  // taken it out of the map and will stop it; never both. A stream that is not
  // launched will be.
  predicate StreamValid(s: State, n: nat)
    requires n < |s.streams|
  {
    && (!s.streams[n].stopped <==> Entry(s, n) || n in s.stops)
    && !(Entry(s, n) && n in s.stops)
    && (!s.streams[n].launched <==> n in s.launches)
  }

  ghost predicate Valid(s: State) {
    && MapsValid(s)
    && (forall n :: n in s.stops || n in s.launches ==> n < |s.streams|)
    && (forall n :: 0 <= n < |s.streams| ==> StreamValid(s, n))
  }

  // Streams keep their camera and key, and the maps stay as they are.
  lemma SameEntries(s: State, t: State)
    requires MapsValid(s) && t.recognition == s.recognition && t.preview == s.preview && |t.streams| == |s.streams|
    requires forall n :: 0 <= n < |s.streams| ==>
               t.streams[n].camera == s.streams[n].camera && t.streams[n].key == s.streams[n].key
    ensures MapsValid(t)
    ensures forall n :: 0 <= n < |s.streams| ==> Entry(t, n) == Entry(s, n)
  {
  }

  lemma TouchKeepsValid(s: State, n: nat, at: int)
    requires Valid(s) && n < |s.streams|
    ensures Valid(s.(streams := s.streams[n := Touched(s.streams[n], at)]))
  {
    var t := s.(streams := s.streams[n := Touched(s.streams[n], at)]);
    SameEntries(s, t);
    forall m | 0 <= m < |s.streams|
      ensures StreamValid(t, m)
    {
      assert StreamValid(s, m);
    }
  }

  // A new stream takes the place of the old entry, if there is one.
  lemma ReplaceKeepsMaps(s: State, camera: Camera, purpose: Purpose, at: int)
    requires MapsValid(s) && Continuous(camera) && !Reuses(s, camera, purpose)
    ensures MapsValid(AfterEnsure(s, camera, purpose, at))
  {
    var t := AfterEnsure(s, camera, purpose, at);
    var effective := EffectivePurpose(camera, purpose);
    assert PoolOf(t, effective) == PoolOf(s, effective)[camera.id := |s.streams|];
  }

  lemma ReplacedEntry(s: State, camera: Camera, purpose: Purpose, at: int, n: nat)
    requires MapsValid(s) && Continuous(camera) && !Reuses(s, camera, purpose) && n <= |s.streams|
    ensures var t, pool := AfterEnsure(s, camera, purpose, at), PoolOf(s, EffectivePurpose(camera, purpose));
            Entry(t, n) <==> n == |s.streams| || (Entry(s, n) && !(camera.id in pool && pool[camera.id] == n))
  {
  }

  lemma ReplaceKeepsValid(s: State, camera: Camera, purpose: Purpose, at: int)
    requires Valid(s) && Continuous(camera) && !Reuses(s, camera, purpose)
    ensures Valid(AfterEnsure(s, camera, purpose, at))
  {
    var t := AfterEnsure(s, camera, purpose, at);
    ReplaceKeepsMaps(s, camera, purpose, at);
    forall n | 0 <= n < |t.streams|
      ensures StreamValid(t, n)
    {
      ReplacedEntry(s, camera, purpose, at, n);
      if n < |s.streams| {
        assert StreamValid(s, n) && t.streams[n] == s.streams[n];
      }
    }
  }

  predicate SubPool(sub: map<nat, nat>, pool: map<nat, nat>) {
    forall c :: c in sub ==> c in pool && sub[c] == pool[c]
  }

  lemma RetireKeepsMaps(s: State, recognition: map<nat, nat>, preview: map<nat, nat>, gone: set<nat>)
    requires MapsValid(s) && SubPool(recognition, s.recognition) && SubPool(preview, s.preview)
    ensures var t := Retire(s, recognition, preview, gone);
            MapsValid(t) && forall n :: Entry(t, n) ==> Entry(s, n)
  {
  }

  lemma RetireKeepsValid(s: State, recognition: map<nat, nat>, preview: map<nat, nat>, gone: set<nat>)
    requires Valid(s) && SubPool(recognition, s.recognition) && SubPool(preview, s.preview)
    requires forall n :: n in gone <==> Entry(s, n) && !Entry(Retire(s, recognition, preview, gone), n)
    ensures Valid(Retire(s, recognition, preview, gone))
  {
    var t := Retire(s, recognition, preview, gone);
    RetireKeepsMaps(s, recognition, preview, gone);
    forall n | 0 <= n < |t.streams|
      ensures StreamValid(t, n)
    {
      assert StreamValid(s, n);
    }
  }

  lemma IdleKeepsValid(s: State, c: nat, n: nat)
    requires Valid(s) && c in s.recognition && s.recognition[c] == n
    ensures Valid(Retire(s, s.recognition - {c}, s.preview, {n}))
  {
    var t := Retire(s, s.recognition - {c}, s.preview, {n});
    forall m: nat
      ensures m in {n} <==> Entry(s, m) && !Entry(t, m)
    {
    }
    RetireKeepsValid(s, s.recognition - {c}, s.preview, {n});
  }

  lemma ReleaseKeepsValid(s: State, c: nat)
    requires Valid(s)
    ensures Valid(Retire(s, s.recognition - {c}, s.preview - {c}, ReleasedBy(s, c)))
  {
    var gone := ReleasedBy(s, c);
    var t := Retire(s, s.recognition - {c}, s.preview - {c}, gone);
    forall m: nat
      ensures m in gone <==> Entry(s, m) && !Entry(t, m)
    {
    }
    RetireKeepsValid(s, s.recognition - {c}, s.preview - {c}, gone);
  }

  lemma StopAllKeepsValid(s: State)
    requires Valid(s)
    ensures Valid(Retire(s, map[], map[], Entries(s)))
  {
    var t := Retire(s, map[], map[], Entries(s));
    forall m: nat
      ensures m in Entries(s) <==> Entry(s, m) && !Entry(t, m)
    {
      if m in s.recognition.Values {
        var c :| c in s.recognition && s.recognition[c] == m;
      }
      if m in s.preview.Values {
        var c :| c in s.preview && s.preview[c] == m;
      }
      if Entry(s, m) {
        assert m in PoolOf(s, s.streams[m].key.purpose).Values;
      }
    }
    RetireKeepsValid(s, map[], map[], Entries(s));
  }

  lemma ActionKeepsValid(s: State, step: Step)
    requires Valid(s) && (step.StopNext? || step.Launch?)
    ensures Valid(After(s, step))
  {
    var t := After(s, step);
    SameEntries(s, t);
    forall n | 0 <= n < |t.streams|
      ensures StreamValid(t, n)
    {
      assert StreamValid(s, n);
    }
  }

  lemma StepKeepsValid(s: State, step: Step)
    requires Valid(s)
    ensures Valid(After(s, step))
  {
    match step
    case Ensure(camera, purpose, at) =>
      if Continuous(camera) {
        if Reuses(s, camera, purpose) {
          TouchKeepsValid(s, PoolOf(s, EffectivePurpose(camera, purpose))[camera.id], at);
        } else {
          ReplaceKeepsValid(s, camera, purpose, at);
        }
      }
    case IdleTick(c, n, tick, _) =>
      if IdleReleases(s, c, n, tick) {
        IdleKeepsValid(s, c, n);
      }
    case Release(c, _) => ReleaseKeepsValid(s, c);
    case StopAll(_) => StopAllKeepsValid(s);
    case StopNext(n, at) => ActionKeepsValid(s, step);
    case Launch(n, at) => ActionKeepsValid(s, step);
  }

  lemma {:induction false} RunKeepsValid(steps: seq<Step>)
    ensures Valid(Run(Empty(), steps))
  {
    if steps != [] {
      RunKeepsValid(steps[..|steps| - 1]);
      StepKeepsValid(Run(Empty(), steps[..|steps| - 1]), steps[|steps| - 1]);
    }
  }

  // ---- How many streams run ----

  // Of the running streams of a camera that are not about to be stopped, a pool
  // has at most one, and there are two in all only if both maps hold one.
  lemma AtMostOnePerPool(s: State, m: nat, n: nat)
    requires Valid(s) && m < |s.streams| && n < |s.streams| && m !in s.stops && n !in s.stops
    requires !s.streams[m].stopped && !s.streams[n].stopped && s.streams[m].camera == s.streams[n].camera
    ensures s.streams[m].key.purpose.Recognition? == s.streams[n].key.purpose.Recognition? ==> m == n
    ensures m != n ==> s.streams[m].camera in s.recognition && s.streams[m].camera in s.preview
  {
    assert StreamValid(s, m) && StreamValid(s, n);
  }

  lemma BothMapsBothRun(s: State, c: nat)
    requires Valid(s) && c in s.recognition && c in s.preview
    ensures var m, n := s.recognition[c], s.preview[c];
            m != n && !s.streams[m].stopped && !s.streams[n].stopped && m !in s.stops && n !in s.stops
  {
    assert StreamValid(s, s.recognition[c]) && StreamValid(s, s.preview[c]);
  }

  // ---- When a camera has an entry ----

  // The step asks for a stream of the camera that belongs into the recognition
  // map, or into the preview map.
  predicate Starts(step: Step, c: nat, recognition: bool) {
    && step.Ensure? && step.camera.id == c && Continuous(step.camera)
    && EffectivePurpose(step.camera, step.purpose).Recognition? == recognition
  }

  // The step takes the camera's stream out of that map: by releasing the camera,
  // by stopping all streams, or by an idle check that finds it idle.
  predicate EndsIn(s: State, step: Step, c: nat, recognition: bool) {
    match step
    case Release(id, _) => id == c
    case StopAll(_) => true
    case IdleTick(id, n, tick, _) => recognition && id == c && IdleReleases(s, c, n, tick)
    case _ => false
  }

  predicate Ends(steps: seq<Step>, j: nat, c: nat, recognition: bool)
    requires j < |steps|
  {
    EndsIn(Run(Empty(), steps[..j]), steps[j], c, recognition)
  }

  // The camera was asked for, and nothing has ended that since.
  ghost predicate Standing(steps: seq<Step>, c: nat, recognition: bool) {
    exists i: nat :: i < |steps| && StandsFrom(steps, i, c, recognition)
  }

  ghost predicate StandsFrom(steps: seq<Step>, i: nat, c: nat, recognition: bool)
    requires i < |steps|
  {
    Starts(steps[i], c, recognition) && forall j :: i < j < |steps| ==> !Ends(steps, j, c, recognition)
  }

  lemma StandsFromNext(steps: seq<Step>, step: Step, i: nat, c: nat, recognition: bool)
    requires i < |steps|
    ensures StandsFrom(steps + [step], i, c, recognition) <==>
            StandsFrom(steps, i, c, recognition) && !Ends(steps + [step], |steps|, c, recognition)
  {
    forall j | 0 <= j < |steps|
      ensures Ends(steps + [step], j, c, recognition) == Ends(steps, j, c, recognition)
    {
      assert (steps + [step])[..j] == steps[..j];
    }
  }

  lemma StandingNext(steps: seq<Step>, step: Step, c: nat, recognition: bool)
    ensures Standing(steps + [step], c, recognition) <==>
            || Starts(step, c, recognition)
            || (Standing(steps, c, recognition) && !Ends(steps + [step], |steps|, c, recognition))
  {
    var steps' := steps + [step];
    if Starts(step, c, recognition) {
      assert StandsFrom(steps', |steps|, c, recognition);
    }
    if Standing(steps, c, recognition) && !Ends(steps', |steps|, c, recognition) {
      var i: nat :| i < |steps| && StandsFrom(steps, i, c, recognition);
      StandsFromNext(steps, step, i, c, recognition);
    }
    if Standing(steps', c, recognition) && !Starts(step, c, recognition) {
      var i: nat :| i < |steps'| && StandsFrom(steps', i, c, recognition);
      StandsFromNext(steps, step, i, c, recognition);
    }
  }

  function PoolFor(s: State, recognition: bool): map<nat, nat> {
    if recognition then s.recognition else s.preview
  }

  lemma EntryStep(s: State, step: Step, c: nat, recognition: bool)
    ensures c in PoolFor(After(s, step), recognition) <==>
            Starts(step, c, recognition) || (c in PoolFor(s, recognition) && !EndsIn(s, step, c, recognition))
  {
  }

  // A map holds a camera exactly if the camera was asked for with a purpose that
  // belongs there and nothing has ended that since.
  lemma {:induction false} EntryIff(steps: seq<Step>, c: nat, recognition: bool)
    ensures c in PoolFor(Run(Empty(), steps), recognition) <==> Standing(steps, c, recognition)
  {
    if steps != [] {
      var before, step := steps[..|steps| - 1], steps[|steps| - 1];
      assert before + [step] == steps;
      EntryIff(before, c, recognition);
      EntryStep(Run(Empty(), before), step, c, recognition);
      StandingNext(before, step, c, recognition);
      assert steps[..|before|] == before;
    }
  }

  // ---- When a camera is captured twice ----

  ghost predicate NoStopPending(s: State, c: nat) {
    forall n :: n in s.stops && n < |s.streams| ==> s.streams[n].camera != c
  }

  predicate Runs(s: State, n: nat, c: nat) {
    n < |s.streams| && s.streams[n].camera == c && !s.streams[n].stopped
  }

  // Once its pending stops are over, a camera has two running streams exactly if
  // a recognition use and a preview or host use of it both still stand.
  lemma TwoRunIff(steps: seq<Step>, c: nat)
    requires NoStopPending(Run(Empty(), steps), c)
    ensures var s := Run(Empty(), steps);
            (exists m: nat, n: nat :: m != n && Runs(s, m, c) && Runs(s, n, c)) <==>
            Standing(steps, c, true) && Standing(steps, c, false)
  {
    var s := Run(Empty(), steps);
    RunKeepsValid(steps);
    EntryIff(steps, c, true);
    EntryIff(steps, c, false);
    if m: nat, n: nat :| m != n && Runs(s, m, c) && Runs(s, n, c) {
      BothStand(steps, c, m, n);
    }
    if c in s.recognition && c in s.preview {
      BothMapsBothRun(s, c);
      assert Runs(s, s.recognition[c], c) && Runs(s, s.preview[c], c);
    }
  }

  lemma BothStand(steps: seq<Step>, c: nat, m: nat, n: nat)
    requires NoStopPending(Run(Empty(), steps), c)
    requires m != n && Runs(Run(Empty(), steps), m, c) && Runs(Run(Empty(), steps), n, c)
    ensures Standing(steps, c, true) && Standing(steps, c, false)
  {
    RunKeepsValid(steps);
    AtMostOnePerPool(Run(Empty(), steps), m, n);
    EntryIff(steps, c, true);
    EntryIff(steps, c, false);
  }

  ghost predicate Ended(steps: seq<Step>, i: nat, c: nat) {
    exists j: nat :: i < j < |steps| && Ends(steps, j, c, true)
  }

  // A host camera is captured at most once in all if every recognition use it had
  // as a network camera has been ended, by a release for example.
  lemma OneHostCapture(steps: seq<Step>, c: nat, m: nat, n: nat)
    requires NoStopPending(Run(Empty(), steps), c)
    requires forall i: nat :: i < |steps| && Starts(steps[i], c, true) ==> Ended(steps, i, c)
    requires Runs(Run(Empty(), steps), m, c) && Runs(Run(Empty(), steps), n, c)
    ensures m == n
  {
    NotStanding(steps, c);
    if m != n {
      BothStand(steps, c, m, n);
    }
  }

  lemma NotStanding(steps: seq<Step>, c: nat)
    requires forall i: nat :: i < |steps| && Starts(steps[i], c, true) ==> Ended(steps, i, c)
    ensures !Standing(steps, c, true)
  {
    forall i: nat | i < |steps|
      ensures !StandsFrom(steps, i, c, true)
    {
    }
  }

  // It happens: a camera record turned from a host camera into a network camera,
  // without a release in between, leaves two captures running.
  lemma KindChangeLeavesTwo()
    ensures exists steps: seq<Step> ::
              var s := Run(Empty(), steps);
              && s.stops == map[] && s.launches == map[] && |s.streams| == 2
              && (forall n :: 0 <= n < 2 ==> s.streams[n].camera == 1 && s.streams[n].launched && !s.streams[n].stopped)
  {
    var host, net := Camera(1, Local, false, "a"), Camera(1, Network, true, "b");
    var e1, l1, e2, l2 := Ensure(host, Preview, 0), Launch(0, 0), Ensure(net, Recognition, 1), Launch(1, 1);
    var a := Stream(1, Key(HostUsb, Local, "a"), Some(0), false, false);
    var b := Stream(1, Key(Recognition, Network, "b"), Some(1), false, false);
    var r1 := [] + [e1];
    var r2 := r1 + [l1];
    var r3 := r2 + [e2];
    var r4 := r3 + [l2];
    RunOne([], e1);
    RunOne(r1, l1);
    RunOne(r2, e2);
    RunOne(r3, l2);
    assert Run(Empty(), r1) == State(map[], map[1 := 0], [a], map[], map[0 := 0], 1);
    LaunchNow(Run(Empty(), r1), 0, 0);
    assert Run(Empty(), r2) == State(map[], map[1 := 0], [a.(launched := true)], map[], map[], 1);
    SecondCapture(Run(Empty(), r2), net, b);
    LaunchNow(Run(Empty(), r3), 1, 1);
    assert Run(Empty(), r4).streams == [a.(launched := true), b.(launched := true)];
  }

  lemma LaunchNow(s: State, n: nat, at: int)
    requires n in s.launches && n < |s.streams| && s.stops == map[]
    ensures After(s, Launch(n, at)) ==
              s.(streams := s.streams[n := s.streams[n].(launched := true)], launches := s.launches - {n})
  {
    assert s.launches[n] !in s.stops.Values;
  }

  lemma SecondCapture(s: State, net: Camera, b: Stream)
    requires net == Camera(1, Network, true, "b") && s.recognition == map[] && s.stops == map[] && s.launches == map[]
    requires |s.streams| == 1 && b == Stream(1, Key(Recognition, Network, "b"), Some(1), false, false)
    ensures After(s, Ensure(net, Recognition, 1)) ==
              s.(recognition := map[1 := 1], streams := s.streams + [b], launches := map[1 := s.calls],
                 calls := s.calls + 1)
  {
  }

  lemma RunOne(steps: seq<Step>, step: Step)
    ensures Run(Empty(), steps + [step]) == After(Run(Empty(), steps), step)
  {
    assert (steps + [step])[..|steps|] == steps;
  }

  // ---- Idle release ----

  // The clock does not run backwards, and an idle check uses a time already past.
  ghost predicate Timed(steps: seq<Step>) {
    && (forall i, j :: 0 <= i < j < |steps| ==> steps[i].at <= steps[j].at)
    && (forall i :: 0 <= i < |steps| && steps[i].IdleTick? ==> steps[i].tick <= steps[i].at)
  }

  predicate UsedSince(s: State, n: nat, t: int) {
    n < |s.streams| && (s.streams[n].key.purpose.Recognition? ==>
                          s.streams[n].lastUsedAt.Some? && s.streams[n].lastUsedAt.value >= t)
  }

  lemma StepKeepsUse(s: State, step: Step, n: nat, t: int)
    requires UsedSince(s, n, t) && step.at >= t
    ensures UsedSince(After(s, step), n, t)
  {
  }

  lemma HandoutIsUse(s: State, camera: Camera, purpose: Purpose, at: int)
    requires Handed(s, camera, purpose).Some?
    ensures UsedSince(AfterEnsure(s, camera, purpose, at), Handed(s, camera, purpose).value, at)
  {
  }

  ghost predicate UsedAfter(steps: seq<Step>, j: nat, n: nat, t: int)
    requires j <= |steps|
  {
    UsedSince(Run(Empty(), steps[..j]), n, t)
  }

  lemma UsedFirst(steps: seq<Step>, i: nat, n: nat)
    requires i < |steps| && steps[i].Ensure?
    requires Handed(Run(Empty(), steps[..i]), steps[i].camera, steps[i].purpose) == Some(n)
    ensures UsedAfter(steps, i + 1, n, steps[i].at)
  {
    assert steps[..i + 1][..i] == steps[..i];
    HandoutIsUse(Run(Empty(), steps[..i]), steps[i].camera, steps[i].purpose, steps[i].at);
  }

  lemma UsedNext(steps: seq<Step>, j: nat, n: nat, t: int)
    requires j < |steps| && UsedAfter(steps, j, n, t) && t <= steps[j].at
    ensures UsedAfter(steps, j + 1, n, t)
  {
    assert steps[..j + 1][..j] == steps[..j];
    StepKeepsUse(Run(Empty(), steps[..j]), steps[j], n, t);
  }

  lemma {:induction false} UsedEverSince(steps: seq<Step>, i: nat, j: nat, n: nat, t: int)
    requires i <= j <= |steps| && UsedAfter(steps, i, n, t)
    requires forall k :: i <= k < j ==> t <= steps[k].at
    ensures UsedAfter(steps, j, n, t)
    decreases j
  {
    if i < j {
      UsedEverSince(steps, i, j - 1, n, t);
      UsedNext(steps, j - 1, n, t);
    }
  }

  // A recognition stream handed out at some time is not released as idle until
  // five seconds later, whatever happens in between.
  lemma NoEarlyIdleRelease(steps: seq<Step>, i: nat, j: nat, n: nat)
    requires Timed(steps) && i < j < |steps| && steps[i].Ensure? && steps[j].IdleTick?
    requires Handed(Run(Empty(), steps[..i]), steps[i].camera, steps[i].purpose) == Some(n)
    requires steps[j].stream == n && IdleReleases(Run(Empty(), steps[..j]), steps[j].cameraId, n, steps[j].tick)
    ensures steps[i].at + IDLE_LIMIT <= steps[j].tick <= steps[j].at
  {
    UsedFirst(steps, i, n);
    UsedEverSince(steps, i + 1, j, n, steps[i].at);
  }

  // ---- The pool object ----

  class Pool {
    var recognition: map<nat, nat>
    var preview: map<nat, nat>
    var streams: seq<Stream>
    var stops: map<nat, nat>
    var launches: map<nat, nat>
    var calls: nat

    function Now(): State
      reads this
    {
      State(recognition, preview, streams, stops, launches, calls)
    }

    constructor ()
      ensures Now() == Empty() && Valid(Now())
    {
      recognition, preview, streams, stops, launches, calls := map[], map[], [], map[], map[], 0;
    }

    method EnsureStream(camera: Camera, purpose: Purpose, at: int) returns (handed: Option<nat>)
      requires MapsValid(Now()) && !purpose.HostUsb?
      modifies this
      ensures Now() == After(old(Now()), Ensure(camera, purpose, at))
      ensures handed == Handed(old(Now()), camera, purpose)
    {
      if !Continuous(camera) {
        return None;
      }
      var effective := purpose;
      if camera.kind.Local? {
        effective := HostUsb;
      }
      var key := Key(effective, camera.kind, camera.settings);
      var target := if effective == Preview || effective == HostUsb then preview else recognition;
      if camera.id in target && streams[target[camera.id]].key == key {
        Touch(target[camera.id], at);
        return Some(target[camera.id]);
      }
      var stream := |streams|;
      streams := streams + [Stream(camera.id, key, Some(at), false, false)];
      if camera.id in target {
        stops := stops[target[camera.id] := calls];
      }
      launches := launches[stream := calls];
      if effective == Recognition {
        recognition := target[camera.id := stream];
      } else {
        preview := target[camera.id := stream];
      }
      calls := calls + 1;
      return Some(stream);
    }

    method Touch(stream: nat, at: int)
      requires stream < |streams|
      modifies this`streams
      ensures streams == old(streams)[stream := Touched(old(streams)[stream], at)]
    {
      if streams[stream].key.purpose.Recognition? {
        streams := streams[stream := streams[stream].(lastUsedAt := Some(at))];
      }
    }

    method StopIfIdle(cameraId: nat, stream: nat, tick: int, ghost at: int) returns (released: bool)
      modifies this
      ensures Now() == After(old(Now()), IdleTick(cameraId, stream, tick, at))
      ensures released == IdleReleases(old(Now()), cameraId, stream, tick)
    {
      if stream >= |streams| || !streams[stream].key.purpose.Recognition? {
        return false;
      }
      if cameraId !in recognition || recognition[cameraId] != stream || IdleFor(streams[stream], tick) < IDLE_LIMIT {
        return false;
      }
      Leave(recognition - {cameraId}, preview, {stream});
      return true;
    }

    method StopCamera(cameraId: nat, ghost at: int)
      modifies this
      ensures Now() == After(old(Now()), Release(cameraId, at))
    {
      var gone := {};
      if cameraId in recognition {
        gone := gone + {recognition[cameraId]};
      }
      if cameraId in preview {
        gone := gone + {preview[cameraId]};
      }
      assert gone == ReleasedBy(Now(), cameraId);
      Leave(recognition - {cameraId}, preview - {cameraId}, gone);
    }

    method StopAllStreams(ghost at: int)
      modifies this
      ensures Now() == After(old(Now()), StopAll(at))
    {
      var gone := Collect(recognition, {});
      gone := Collect(preview, gone);
      assert gone == Entries(Now());
      Leave(map[], map[], gone);
    }

    // The maps as they are left, and what the call will stop once it has given
    // the lock back.
    method Leave(recognition': map<nat, nat>, preview': map<nat, nat>, gone: set<nat>)
      modifies this
      ensures Now() == Retire(old(Now()), recognition', preview', gone)
    {
      recognition, preview := recognition', preview';
      stops := stops + map n | n in gone :: calls;
      calls := calls + 1;
    }

    // One of the loops that gather the streams of a map.
    method Collect(pool: map<nat, nat>, before: set<nat>) returns (gone: set<nat>)
      ensures gone == before + pool.Values
    {
      gone := before;
      var todo := pool.Keys;
      while todo != {}
        invariant todo <= pool.Keys
        invariant gone == before + set c | c in pool && c !in todo :: pool[c]
        decreases todo
      {
        var c :| c in todo;
        gone := gone + {pool[c]};
        todo := todo - {c};
      }
      assert pool.Values == set c | c in pool && c !in todo :: pool[c];
    }

    // The actions after the lock section.
    method StopStream(stream: nat, ghost at: int)
      requires stream in stops && stream < |streams|
      modifies this
      ensures Now() == After(old(Now()), StopNext(stream, at))
    {
      streams := streams[stream := streams[stream].(stopped := true)];
      stops := stops - {stream};
    }

    method LaunchStream(stream: nat, ghost at: int)
      requires MayLaunch(Now(), stream)
      modifies this
      ensures Now() == After(old(Now()), Launch(stream, at))
    {
      streams := streams[stream := streams[stream].(launched := true)];
      launches := launches - {stream};
    }
  }
}
