// Refreshes of the face cache that overlap (internal/web/face_cache.go): a refresh
// reads the rows and sets the cache in two separate steps, so the database may
// change and other refreshes may run in between.
module FaceRefresh {
  import opened Prelude
  import opened School
  import opened FaceCodec
  import opened FaceCache

  // What a refresh has read, and whether it has come to its end. A refresh after a
  // change drops the cache if its read fails; a load for a comparison does not.
  datatype Refresh = Refresh(rows: seq<Decoded>, readOk: bool, load: bool, done: bool)

  // `installed` is the refresh that last set or dropped the cache.
  datatype CacheState = CacheState(db: Db, cache: seq<Decoded>, loaded: bool, refreshes: seq<Refresh>,
                                   installed: Option<nat>)

  datatype Step = Change(db: Db) | Read(readOk: bool, load: bool) | Install(refresh: nat)

  predicate Effective(refresh: Refresh) {
    refresh.readOk || !refresh.load
  }

  ghost function Next(s: CacheState, step: Step): CacheState {
    match step
    case Change(db) => s.(db := db)
    case Read(readOk, load) => s.(refreshes := s.refreshes + [Refresh(View(s.db), readOk, load, false)])
    case Install(r) =>
      if r >= |s.refreshes| || s.refreshes[r].done then s
      else
        var refresh := s.refreshes[r];
        var t := s.(refreshes := s.refreshes[r := refresh.(done := true)]);
        if refresh.readOk then t.(cache := refresh.rows, loaded := true, installed := Some(r))
        else if !refresh.load then t.(cache := [], loaded := false, installed := Some(r))
        else t
  }

  ghost function Steps(db: Db, steps: seq<Step>): CacheState {
    if steps == [] then CacheState(db, [], false, [], None)
    else Next(Steps(db, steps[..|steps| - 1]), steps[|steps| - 1])
  }

  // The cache is what the last refresh to end has read, or dropped.
  ghost predicate CacheTells(s: CacheState) {
    match s.installed
    case None => !s.loaded
    case Some(r) =>
      && r < |s.refreshes| && s.refreshes[r].done && Effective(s.refreshes[r])
      && s.loaded == s.refreshes[r].readOk && s.cache == if s.loaded then s.refreshes[r].rows else []
  }

  lemma {:induction false} StepsTell(db: Db, steps: seq<Step>)
    ensures CacheTells(Steps(db, steps))
  {
    if steps != [] {
      StepsTell(db, steps[..|steps| - 1]);
    }
  }

  // Since the refresh after a change last read, no change has shown in the rows.
  ghost predicate Settled(db: Db, steps: seq<Step>) {
    steps == [] ||
    var before, step := steps[..|steps| - 1], steps[|steps| - 1];
    match step
    case Change(after) => Settled(db, before) && View(after) == View(Steps(db, before).db)
    case Read(_, load) => !load || Settled(db, before)
    case Install(_) => Settled(db, before)
  }

  // Refresh q belongs to a change, and the refreshes from q on have read the rows
  // as they are.
  ghost predicate CurrentFrom(s: CacheState, q: nat) {
    && q < |s.refreshes| && !s.refreshes[q].load
    && forall r :: q <= r < |s.refreshes| ==> s.refreshes[r].rows == View(s.db)
  }

  ghost predicate AllCurrent(s: CacheState) {
    forall r :: 0 <= r < |s.refreshes| ==> s.refreshes[r].rows == View(s.db)
  }

  lemma NextCurrent(s: CacheState, step: Step)
    requires step.Change? ==> View(step.db) == View(s.db)
    ensures AllCurrent(s) ==> AllCurrent(Next(s, step))
    ensures forall q: nat :: CurrentFrom(s, q) ==> CurrentFrom(Next(s, step), q)
    ensures step.Read? && !step.load ==> CurrentFrom(Next(s, step), |s.refreshes|)
  {
  }

  lemma {:induction false} SettledReads(db: Db, steps: seq<Step>)
    requires Settled(db, steps)
    ensures AllCurrent(Steps(db, steps)) || exists q: nat :: CurrentFrom(Steps(db, steps), q)
  {
    if steps != [] {
      var before, step := steps[..|steps| - 1], steps[|steps| - 1];
      NextCurrent(Steps(db, before), step);
      if !(step.Read? && !step.load) {
        SettledReads(db, before);
      }
    }
  }

  ghost predicate AllDone(s: CacheState) {
    forall r :: 0 <= r < |s.refreshes| ==> s.refreshes[r].done
  }

  ghost predicate UpToDate(s: CacheState) {
    s.loaded ==> s.cache == View(s.db)
  }

  // Refresh q has read after refresh r and has ended before it, and r had read
  // other rows.
  ghost predicate Overtaken(s: CacheState, r: nat, q: nat) {
    && s.installed == Some(r) && r < q < |s.refreshes|
    && s.refreshes[r].readOk && !s.refreshes[q].load && s.refreshes[q].done
    && s.refreshes[q].rows == View(s.db) && s.refreshes[r].rows != s.refreshes[q].rows
  }

  // Once every change has been refreshed and all refreshes have ended, the cache is
  // stale exactly if the refresh that ended last was overtaken by one of a change,
  // which had read later and other rows.
  lemma StaleIffOvertaken(db: Db, steps: seq<Step>)
    requires Settled(db, steps) && AllDone(Steps(db, steps))
    ensures var s := Steps(db, steps);
            !UpToDate(s) <==> exists r: nat, q: nat :: Overtaken(s, r, q)
  {
    StepsTell(db, steps);
    SettledReads(db, steps);
    var s := Steps(db, steps);
    if !UpToDate(s) {
      var r := s.installed.value;
      var q: nat :| CurrentFrom(s, q);
      assert Overtaken(s, r, q);
    }
  }

  // ---- Refreshes one at a time ----

  ghost predicate OneAtATime(db: Db, steps: seq<Step>) {
    forall i :: 0 <= i < |steps| && steps[i].Read? ==> AllDone(Steps(db, steps[..i]))
  }

  // Only the last refresh may be under way, and none that ended later than the one
  // installed had an effect.
  ghost predicate InOrder(s: CacheState) {
    && (forall r :: 0 <= r < |s.refreshes| - 1 ==> s.refreshes[r].done)
    && forall r :: 0 <= r < |s.refreshes| && s.refreshes[r].done && Effective(s.refreshes[r]) ==>
         s.installed.Some? && r <= s.installed.value
  }

  lemma {:induction false} OneAtATimeInOrder(db: Db, steps: seq<Step>)
    requires OneAtATime(db, steps)
    ensures InOrder(Steps(db, steps))
  {
    if steps != [] {
      var before := steps[..|steps| - 1];
      assert forall i :: 0 <= i < |before| ==> before[..i] == steps[..i];
      OneAtATimeInOrder(db, before);
      StepsTell(db, before);
    }
  }

  // Refreshes that do not overlap leave the cache up to date.
  lemma OneAtATimeIsCurrent(db: Db, steps: seq<Step>)
    requires Settled(db, steps) && AllDone(Steps(db, steps)) && OneAtATime(db, steps)
    ensures UpToDate(Steps(db, steps))
  {
    OneAtATimeInOrder(db, steps);
    StaleIffOvertaken(db, steps);
  }

  lemma StepsNext(db: Db, steps: seq<Step>, step: Step)
    ensures Steps(db, steps + [step]) == Next(Steps(db, steps), step)
    ensures Settled(db, steps + [step]) <==>
              match step
              case Change(after) => Settled(db, steps) && View(after) == View(Steps(db, steps).db)
              case Read(_, load) => !load || Settled(db, steps)
              case Install(_) => Settled(db, steps)
  {
    assert (steps + [step])[..|steps|] == steps;
  }

  // Two changes, each with its refresh, and the first refresh sets the cache last.
  lemma OvertakingIsStale(before: Db, between: Db)
    requires View(between) != View(before)
    ensures var steps := [Change(between)] + [Read(true, false)] + [Change(before)] + [Read(true, false)]
                         + [Install(1)] + [Install(0)];
            Settled(before, steps) && AllDone(Steps(before, steps)) && !UpToDate(Steps(before, steps))
  {
    var one := [Change(between)];
    var two := one + [Read(true, false)];
    var three := two + [Change(before)];
    var four := three + [Read(true, false)];
    var five := four + [Install(1)];
    assert one[..0] == [];
    StepsNext(before, one, Read(true, false));
    StepsNext(before, two, Change(before));
    StepsNext(before, three, Read(true, false));
    StepsNext(before, four, Install(1));
    StepsNext(before, five, Install(0));
    var a, b := Refresh(View(between), true, false, false), Refresh(View(before), true, false, false);
    assert Steps(before, four) == CacheState(before, [], false, [a, b], None);
  }

  // It happens: a student with a face is enrolled and then removed, and the refresh
  // of the enrolment sets the cache last.
  lemma OvertakingHappens(feature: Feature)
    requires feature != []
    ensures var empty := Db(map[], map[], map[]);
            var steps := [Change(SmallDb(feature))] + [Read(true, false)] + [Change(empty)] + [Read(true, false)]
                         + [Install(1)] + [Install(0)];
            Settled(empty, steps) && AllDone(Steps(empty, steps)) && !UpToDate(Steps(empty, steps))
  {
    var empty := Db(map[], map[], map[]);
    SmallView(feature);
    ViewIsTheRows(empty);
    OvertakingIsStale(empty, SmallDb(feature));
  }
}
