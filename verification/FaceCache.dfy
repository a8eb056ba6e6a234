// The cache of decoded face samples and the handlers that change the samples
// (internal/web/face_cache.go, enrollment.go, students.go, classes.go): what the
// cache hands out against what the database holds.
module FaceCache {
  import opened Prelude
  import opened School
  import opened FaceCodec

  datatype Sample = Sample(student: nat, embedding: seq<Byte>, createdAt: int)

  datatype Db = Db(students: Students, classes: Classes, samples: map<nat, Sample>)

  datatype Decoded = Decoded(sampleId: nat, studentId: nat, no: string, name: string, className: string,
                             feature: Feature)

  // ---- The rows of ListFaceSamples that decode, in order ----

  predicate Usable(db: Db, k: nat) {
    k in db.samples && db.samples[k].student in db.students && Decode(db.samples[k].embedding).Some?
  }

  function DecodedOf(db: Db, k: nat): Decoded
    requires Usable(db, k)
  {
    var sample := db.samples[k];
    var student := db.students[sample.student];
    Decoded(k, sample.student, student.no, student.name, student.className, Decode(sample.embedding).value)
  }

  // ORDER BY s.id,f.created_at,f.id
  predicate Precedes(samples: map<nat, Sample>, a: nat, b: nat) {
    a in samples && b in samples &&
    var x, y := samples[a], samples[b];
    x.student < y.student
    || (x.student == y.student && (x.createdAt < y.createdAt || (x.createdAt == y.createdAt && a < b)))
  }

  ghost predicate InOrder(ids: seq<nat>, samples: map<nat, Sample>) {
    forall i, j :: 0 <= i < j < |ids| ==> Precedes(samples, ids[i], ids[j])
  }

  ghost predicate IsOrder(ids: seq<nat>, samples: map<nat, Sample>, wanted: set<nat>) {
    (forall k :: k in ids <==> k in wanted) && InOrder(ids, samples)
  }

  lemma InsertInOrder(ids: seq<nat>, samples: map<nat, Sample>, k: nat, p: nat)
    requires InOrder(ids, samples) && k in samples && p <= |ids|
    requires forall i :: 0 <= i < p ==> Precedes(samples, ids[i], k)
    requires forall i :: p <= i < |ids| ==> Precedes(samples, k, ids[i])
    ensures InOrder(ids[..p] + [k] + ids[p..], samples)
  {
  }

  // Where k belongs: after everything that precedes it.
  function Place(ids: seq<nat>, samples: map<nat, Sample>, k: nat): (p: nat)
    ensures p <= |ids|
    ensures forall i :: p <= i < |ids| ==> !Precedes(samples, ids[i], k)
    ensures p > 0 ==> Precedes(samples, ids[p - 1], k)
  {
    if ids == [] then 0
    else if Precedes(samples, ids[|ids| - 1], k) then |ids|
    else Place(ids[..|ids| - 1], samples, k)
  }

  lemma {:induction false} OrderExists(samples: map<nat, Sample>, wanted: set<nat>)
    requires wanted <= samples.Keys
    ensures exists ids :: IsOrder(ids, samples, wanted)
  {
    if wanted == {} {
      assert IsOrder([], samples, wanted);
    } else {
      var k :| k in wanted;
      OrderExists(samples, wanted - {k});
      var ids :| IsOrder(ids, samples, wanted - {k});
      PlacedInOrder(ids, samples, wanted - {k}, k);
      var p := Place(ids, samples, k);
      assert wanted - {k} + {k} == wanted;
      assert IsOrder(ids[..p] + [k] + ids[p..], samples, wanted);
    }
  }

  lemma AmongPlaced(ids: seq<nat>, k: nat, p: nat, x: nat)
    requires p <= |ids|
    ensures x in ids[..p] + [k] + ids[p..] <==> x in ids || x == k
  {
    assert ids == ids[..p] + ids[p..];
  }

  lemma PlacedInOrder(ids: seq<nat>, samples: map<nat, Sample>, present: set<nat>, k: nat)
    requires present <= samples.Keys && IsOrder(ids, samples, present) && k in samples && k !in present
    ensures var p := Place(ids, samples, k); IsOrder(ids[..p] + [k] + ids[p..], samples, present + {k})
  {
    var p := Place(ids, samples, k);
    forall i | 0 <= i < |ids|
      ensures ids[i] != k && ids[i] in samples
    {
      assert ids[i] in present;
    }
    forall i | 0 <= i < p
      ensures Precedes(samples, ids[i], k)
    {
      assert i < p - 1 ==> Precedes(samples, ids[i], ids[p - 1]);
    }
    InsertInOrder(ids, samples, k, p);
    forall x: nat
      ensures x in ids[..p] + [k] + ids[p..] <==> x in present + {k}
    {
      AmongPlaced(ids, k, p, x);
    }
  }

  lemma {:induction false} OrderUnique(l: seq<nat>, m: seq<nat>, samples: map<nat, Sample>, wanted: set<nat>)
    requires IsOrder(l, samples, wanted) && IsOrder(m, samples, wanted)
    ensures l == m
    decreases |l|
  {
    EmptyOrder(l, samples, wanted);
    EmptyOrder(m, samples, wanted);
    if l != [] && m != [] {
      SameFirst(l, m, samples, wanted);
      RestInOrder(l, samples, wanted);
      RestInOrder(m, samples, wanted);
      OrderUnique(l[1..], m[1..], samples, wanted - {l[0]});
      assert l == [l[0]] + l[1..] && m == [m[0]] + m[1..];
    }
  }

  lemma EmptyOrder(l: seq<nat>, samples: map<nat, Sample>, wanted: set<nat>)
    requires IsOrder(l, samples, wanted)
    ensures l == [] <==> wanted == {}
  {
    if l != [] {
      assert l[0] in l;
    }
  }

  lemma SameFirst(l: seq<nat>, m: seq<nat>, samples: map<nat, Sample>, wanted: set<nat>)
    requires IsOrder(l, samples, wanted) && IsOrder(m, samples, wanted) && l != [] && m != []
    ensures l[0] == m[0]
  {
    assert l[0] in m && m[0] in l;
    var i :| 0 <= i < |m| && m[i] == l[0];
    var j :| 0 <= j < |l| && l[j] == m[0];
    assert i > 0 ==> Precedes(samples, m[0], m[i]);
    assert j > 0 ==> Precedes(samples, l[0], l[j]);
  }

  lemma RestInOrder(l: seq<nat>, samples: map<nat, Sample>, wanted: set<nat>)
    requires IsOrder(l, samples, wanted) && l != []
    ensures IsOrder(l[1..], samples, wanted - {l[0]})
  {
    forall i | 0 < i < |l|
      ensures l[i] != l[0]
    {
      assert Precedes(samples, l[0], l[i]);
    }
    forall k
      ensures k in l[1..] <==> k in wanted - {l[0]}
    {
      if k in l[1..] {
        var i :| 0 <= i < |l[1..]| && l[1..][i] == k;
        assert k == l[i + 1] && k in l;
      }
      if k in wanted - {l[0]} {
        assert k in l;
      }
    }
    forall i, j | 0 <= i < j < |l[1..]|
      ensures Precedes(samples, l[1..][i], l[1..][j])
    {
      assert Precedes(samples, l[i + 1], l[j + 1]);
    }
  }

  function UsableIds(db: Db): set<nat> {
    set k | k in db.samples && Usable(db, k)
  }

  ghost function OrderedIds(db: Db): (ids: seq<nat>)
    ensures IsOrder(ids, db.samples, UsableIds(db))
  {
    OrderExists(db.samples, UsableIds(db));
    var ids :| IsOrder(ids, db.samples, UsableIds(db));
    ids
  }

  // What a cache should hold.
  ghost function View(db: Db): seq<Decoded> {
    var ids := OrderedIds(db);
    seq(|ids|, i requires 0 <= i < |ids| => assert ids[i] in ids; DecodedOf(db, ids[i]))
  }

  // The cache holds the decodable rows, each once, in order.
  lemma ViewIsTheRows(db: Db)
    ensures forall k :: Usable(db, k) ==> DecodedOf(db, k) in View(db)
    ensures forall i :: 0 <= i < |View(db)| ==>
              Usable(db, View(db)[i].sampleId) && View(db)[i] == DecodedOf(db, View(db)[i].sampleId)
    ensures forall i, j :: 0 <= i < j < |View(db)| ==> Precedes(db.samples, View(db)[i].sampleId, View(db)[j].sampleId)
  {
    var ids, view := OrderedIds(db), View(db);
    forall k | Usable(db, k)
      ensures DecodedOf(db, k) in view
    {
      assert k in UsableIds(db) && k in ids;
      var i :| 0 <= i < |ids| && ids[i] == k;
      assert view[i] == DecodedOf(db, k);
    }
    forall i | 0 <= i < |view|
      ensures Usable(db, view[i].sampleId) && view[i] == DecodedOf(db, view[i].sampleId)
    {
      assert ids[i] in ids;
    }
  }

  // ---- Comparing a feature with the samples ----

  datatype Config = Config(threshold: real, similarity: (Feature, Feature) -> real, clock: string -> Option<nat>)

  datatype Comparison = Comparison(sameFound: bool, sameScore: real, other: Option<nat>, otherScore: real)

  function CompareOne(c: Comparison, d: Decoded, score: real, target: nat): Comparison {
    if target > 0 && d.studentId == target then
      c.(sameFound := true, sameScore := if score > c.sameScore then score else c.sameScore)
    else if score > c.otherScore then c.(other := Some(d.studentId), otherScore := score)
    else c
  }

  function Compare(config: Config, ds: seq<Decoded>, feature: Feature, target: nat): Comparison {
    if ds == [] then Comparison(false, 0.0, None, 0.0)
    else
      var d := ds[|ds| - 1];
      CompareOne(Compare(config, ds[..|ds| - 1], feature, target), d, config.similarity(feature, d.feature), target)
  }

  predicate Duplicate(config: Config, c: Comparison) {
    c.other.Some? && c.otherScore >= config.threshold
  }

  predicate MayAdd(config: Config, c: Comparison) {
    && !(Duplicate(config, c) && (!c.sameFound || c.otherScore > c.sameScore))
    && !(c.sameFound && (c.sameScore < config.threshold || c.sameScore >= 0.995))
  }

  // A face is a duplicate exactly if the sample of some other student matches it.
  lemma {:induction false} DuplicateMeans(config: Config, ds: seq<Decoded>, feature: Feature, target: nat)
    requires config.threshold > 0.0
    ensures var c := Compare(config, ds, feature, target);
            && c.otherScore >= 0.0 && (c.otherScore > 0.0 ==> c.other.Some?)
            && (forall i :: 0 <= i < |ds| && (target == 0 || ds[i].studentId != target) ==>
                  config.similarity(feature, ds[i].feature) <= c.otherScore)
            && (Duplicate(config, c) <==>
                  exists i :: 0 <= i < |ds| && (target == 0 || ds[i].studentId != target)
                              && config.similarity(feature, ds[i].feature) >= config.threshold)
  {
    if ds != [] {
      var n := |ds| - 1;
      DuplicateMeans(config, ds[..n], feature, target);
      var before, after := Compare(config, ds[..n], feature, target), Compare(config, ds, feature, target);
      if Duplicate(config, before) {
        var i :| 0 <= i < n && (target == 0 || ds[..n][i].studentId != target)
                 && config.similarity(feature, ds[..n][i].feature) >= config.threshold;
        assert ds[i] == ds[..n][i];
      }
      forall i | 0 <= i < |ds| && (target == 0 || ds[i].studentId != target)
        ensures config.similarity(feature, ds[i].feature) <= after.otherScore
      {
        assert i < n ==> ds[..n][i] == ds[i];
      }
    }
  }

  // ---- The server's state and handlers ----

  datatype State = State(db: Db, cache: seq<Decoded>, loaded: bool)

  // `readOk`, `checkOk` and `reloadOk` say whether the database answers the reads
  // of a handler: the samples for a comparison, the check of the class, and the
  // samples for the refresh at the end. `Seating` is any handler that leaves what
  // the cache shows of the students as it is.
  datatype Event =
    | Recognize(readOk: bool)
    | Enrol(id: nat, sampleId: nat, no: string, name: string, className: string, feature: Feature, createdAt: int,
            readOk: bool, checkOk: bool, reloadOk: bool)
    | AddSample(studentId: nat, sampleId: nat, feature: Feature, createdAt: int, readOk: bool, reloadOk: bool)
    | DeleteSample(studentId: nat, sampleId: nat, reloadOk: bool)
    | RemoveStudent(id: nat, reloadOk: bool)
    | UpdateClass(id: nat, name: string, rows: int, perRow: int, lateAfter: string, deadline: string,
                  readFails: bool, reloadOk: bool)
    | Seating(students: Students, classes: Classes)

  ghost function Loaded(s: State, readOk: bool): State {
    if !s.loaded && readOk then State(s.db, View(s.db), true) else s
  }

  ghost function Refreshed(db: Db, reloadOk: bool): State {
    if reloadOk then State(db, View(db), true) else State(db, [], false)
  }

  predicate Faces(before: Students, after: Students) {
    forall k :: k in before ==> k in after && after[k].no == before[k].no && after[k].name == before[k].name
                                && after[k].className == before[k].className
  }

  function WithoutStudent(db: Db, id: nat): Db {
    db.(students := db.students - {id},
        samples := map k | k in db.samples && db.samples[k].student != id :: db.samples[k])
  }

  ghost predicate Enrols(s: State, config: Config, e: Event)
    requires e.Enrol?
  {
    && s.loaded && e.checkOk && !Duplicate(config, Compare(config, s.cache, e.feature, 0))
    && ClassNamed(s.db.classes, e.className)
    && CreateStudentError(s.db.students, e.id, e.no, e.name).None? && e.feature != []
    && e.id !in s.db.students && e.sampleId !in s.db.samples
  }

  ghost predicate Adds(s: State, config: Config, e: Event)
    requires e.AddSample?
  {
    && s.loaded && MayAdd(config, Compare(config, s.cache, e.feature, e.studentId))
    && e.studentId in s.db.students && e.feature != [] && e.sampleId !in s.db.samples
  }

  ghost function After(s: State, config: Config, e: Event): State {
    match e
    case Recognize(readOk) => Loaded(s, readOk)
    case Enrol(id, sampleId, no, name, className, feature, createdAt, readOk, checkOk, reloadOk) =>
      var t := Loaded(s, readOk);
      if !Enrols(t, config, e) then t
      else Refreshed(t.db.(students := AfterCreateStudent(t.db.students, id, no, name, className),
                           samples := t.db.samples[sampleId := Sample(id, Encode(feature), createdAt)]), reloadOk)
    case AddSample(studentId, sampleId, feature, createdAt, readOk, reloadOk) =>
      var t := Loaded(s, readOk);
      if !Adds(t, config, e) then t
      else Refreshed(t.db.(samples := t.db.samples[sampleId := Sample(studentId, Encode(feature), createdAt)]),
                     reloadOk)
    case DeleteSample(studentId, sampleId, reloadOk) =>
      if sampleId in s.db.samples && s.db.samples[sampleId].student == studentId
      then Refreshed(s.db.(samples := s.db.samples - {sampleId}), reloadOk)
      else s
    case RemoveStudent(id, reloadOk) =>
      if id in s.db.students then Refreshed(WithoutStudent(s.db, id), reloadOk) else s
    case UpdateClass(id, name, rows, perRow, lateAfter, deadline, readFails, reloadOk) =>
      if UpdateClassError(s.db.students, s.db.classes, config.clock, id, name, rows, perRow, lateAfter,
                          deadline).Some? then s
      else
        var (ss, cs) := AfterUpdateClass(s.db.students, s.db.classes, config.clock, id, name, rows, perRow, lateAfter,
                                         deadline);
        var db := s.db.(students := ss, classes := cs);
        if readFails then s.(db := db) else Refreshed(db, reloadOk)
    case Seating(ss, cs) =>
      if Faces(s.db.students, ss) then s.(db := s.db.(students := ss, classes := cs)) else s
  }

  // What is cached is what the database holds.
  ghost predicate Consistent(s: State) {
    s.loaded ==> s.cache == View(s.db)
  }

  // Every sample belongs to a student.
  ghost predicate Owned(db: Db) {
    forall k :: k in db.samples ==> db.samples[k].student in db.students
  }

  lemma SameOrder(a: Db, b: Db)
    requires a.samples == b.samples && UsableIds(a) == UsableIds(b)
    ensures OrderedIds(a) == OrderedIds(b)
  {
    OrderUnique(OrderedIds(a), OrderedIds(b), a.samples, UsableIds(a));
  }

  lemma FacesKeepView(db: Db, ss: Students, cs: Classes)
    requires Owned(db) && Faces(db.students, ss)
    ensures View(db.(students := ss, classes := cs)) == View(db)
  {
    var db' := db.(students := ss, classes := cs);
    assert UsableIds(db') == UsableIds(db);
    SameOrder(db, db');
    assert forall i :: 0 <= i < |OrderedIds(db)| ==> OrderedIds(db)[i] in OrderedIds(db);
  }

  // The one handler that can leave a stale cache: the class is changed, but cannot
  // be read back, and the handler returns without a refresh.
  predicate SkipsRefresh(s: State, config: Config, e: Event) {
    e.UpdateClass? && e.readFails
    && UpdateClassError(s.db.students, s.db.classes, config.clock, e.id, e.name, e.rows, e.perRow, e.lateAfter,
                        e.deadline).None?
  }

  lemma RenamedView(db: Db, before: string, after: string, cs: Classes)
    requires Owned(db)
    ensures var v, w := View(db), View(db.(students := Renamed(db.students, before, after), classes := cs));
            && |w| == |v|
            && forall i :: 0 <= i < |v| ==> w[i] == if v[i].className == before then v[i].(className := after) else v[i]
  {
    var db' := db.(students := Renamed(db.students, before, after), classes := cs);
    assert UsableIds(db') == UsableIds(db);
    SameOrder(db, db');
    assert forall i :: 0 <= i < |OrderedIds(db)| ==> OrderedIds(db)[i] in OrderedIds(db);
  }

  // The change shows in the cache: one is loaded, the name changes and some cached
  // student is in the class.
  ghost predicate LeavesStale(s: State, config: Config, e: Event) {
    && SkipsRefresh(s, config, e) && s.loaded
    && var oldName := s.db.classes[e.id].name;
       e.name != oldName && exists i :: 0 <= i < |s.cache| && s.cache[i].className == oldName
  }

  // Skipping the refresh leaves a stale cache exactly if the change shows in it.
  lemma StaleIff(s: State, config: Config, e: Event)
    requires Consistent(s) && Owned(s.db) && SkipsRefresh(s, config, e)
    ensures Consistent(After(s, config, e)) <==> !LeavesStale(s, config, e)
  {
    var oldName := s.db.classes[e.id].name;
    var (ss, cs) := AfterUpdateClass(s.db.students, s.db.classes, config.clock, e.id, e.name, e.rows, e.perRow,
                                     e.lateAfter, e.deadline);
    RenamedView(s.db, oldName, e.name, cs);
    var v, w := View(s.db), View(s.db.(students := ss, classes := cs));
    if v != w {
      assert exists i :: 0 <= i < |v| && v[i] != w[i];
    }
  }

  // A database with one class, one of its students and a sample of the student.
  function SmallDb(feature: Feature): Db {
    Db(map[1 := Student("7", "Ann", "A", 0)], map[1 := Class("A", 1, 5, 5, "", "")],
       map[1 := Sample(1, Encode(feature), 0)])
  }

  lemma SmallView(feature: Feature)
    requires feature != []
    ensures Usable(SmallDb(feature), 1) && DecodedOf(SmallDb(feature), 1) in View(SmallDb(feature))
  {
    RoundTrip(feature, []);
    ViewIsTheRows(SmallDb(feature));
  }

  lemma SmallRename(config: Config, feature: Feature)
    ensures SkipsRefresh(State(SmallDb(feature), View(SmallDb(feature)), true), config,
                         UpdateClass(1, "B", 5, 5, "", "", true, true))
  {
    assert Members(SmallDb(feature).students, "A") == {1};
  }

  // It happens: the class is renamed and cannot be read back, and its student is
  // handed out under the old name.
  lemma StaleHappens(config: Config, feature: Feature)
    requires feature != []
    ensures var s := State(SmallDb(feature), View(SmallDb(feature)), true);
            && Consistent(s) && Owned(s.db)
            && !Consistent(After(s, config, UpdateClass(1, "B", 5, 5, "", "", true, true)))
  {
    var s, e := State(SmallDb(feature), View(SmallDb(feature)), true), UpdateClass(1, "B", 5, 5, "", "", true, true);
    SmallView(feature);
    SmallRename(config, feature);
    var i :| 0 <= i < |s.cache| && s.cache[i] == DecodedOf(SmallDb(feature), 1);
    assert s.cache[i].className == "A";
    StaleIff(s, config, e);
  }

  // A handler that refreshes, or changes nothing, keeps cache and rows equal.
  lemma RefreshingKeepsConsistent(s: State, config: Config, e: Event)
    requires Consistent(s) && Owned(s.db)
    ensures !SkipsRefresh(s, config, e) ==> Consistent(After(s, config, e))
  {
    if e.Seating? && Faces(s.db.students, e.students) {
      FacesKeepView(s.db, e.students, e.classes);
    }
  }

  lemma HandlersKeepOwned(s: State, config: Config, e: Event)
    requires Owned(s.db)
    ensures Owned(After(s, config, e).db)
  {
  }

  // A handler keeps the cache equal to the rows unless it leaves a change
  // unrefreshed that shows in it.
  lemma StepKeepsConsistent(s: State, config: Config, e: Event)
    requires Consistent(s) && Owned(s.db)
    ensures Owned(After(s, config, e).db)
    ensures Consistent(After(s, config, e)) <==> !LeavesStale(s, config, e)
  {
    HandlersKeepOwned(s, config, e);
    RefreshingKeepsConsistent(s, config, e);
    if SkipsRefresh(s, config, e) {
      StaleIff(s, config, e);
    }
  }

  // ---- Runs ----

  ghost function Run(s: State, config: Config, es: seq<Event>): State {
    if es == [] then s else After(Run(s, config, es[..|es| - 1]), config, es[|es| - 1])
  }

  ghost predicate NeverStale(s: State, config: Config, es: seq<Event>) {
    forall i :: 0 <= i < |es| ==> !LeavesStale(Run(s, config, es[..i]), config, es[i])
  }

  lemma {:induction false} RunKeepsConsistent(s: State, config: Config, es: seq<Event>)
    requires Consistent(s) && Owned(s.db) && NeverStale(s, config, es)
    ensures Consistent(Run(s, config, es)) && Owned(Run(s, config, es).db)
  {
    if es != [] {
      var before := es[..|es| - 1];
      forall i | 0 <= i < |before|
        ensures !LeavesStale(Run(s, config, before[..i]), config, before[i])
      {
        assert before[..i] == es[..i];
      }
      RunKeepsConsistent(s, config, before);
      StepKeepsConsistent(Run(s, config, before), config, es[|es| - 1]);
    }
  }

  lemma {:induction false} RunKeepsOwned(s: State, config: Config, es: seq<Event>, i: nat)
    requires Owned(s.db) && i <= |es| && forall j :: 0 <= j < i ==> Consistent(Run(s, config, es[..j]))
    ensures Owned(Run(s, config, es[..i]).db)
  {
    if i > 0 {
      RunKeepsOwned(s, config, es, i - 1);
      assert es[..i][..i - 1] == es[..i - 1];
      StepKeepsConsistent(Run(s, config, es[..i - 1]), config, es[i - 1]);
    }
  }

  ghost predicate ConsistentThroughout(s: State, config: Config, es: seq<Event>) {
    forall i :: 0 <= i <= |es| ==> Consistent(Run(s, config, es[..i]))
  }

  lemma NeverStaleStays(s: State, config: Config, es: seq<Event>, i: nat)
    requires Consistent(s) && Owned(s.db) && NeverStale(s, config, es) && i <= |es|
    ensures Consistent(Run(s, config, es[..i]))
  {
    assert forall j :: 0 <= j < i ==> es[..i][..j] == es[..j];
    RunKeepsConsistent(s, config, es[..i]);
  }

  lemma RunOneMore(s: State, config: Config, es: seq<Event>, i: nat)
    requires i < |es|
    ensures Run(s, config, es[..i + 1]) == After(Run(s, config, es[..i]), config, es[i])
  {
    assert es[..i + 1][..i] == es[..i];
  }

  lemma ConsistentIsNotStale(s: State, config: Config, es: seq<Event>, i: nat)
    requires Owned(s.db) && ConsistentThroughout(s, config, es) && i < |es|
    ensures !LeavesStale(Run(s, config, es[..i]), config, es[i])
  {
    RunKeepsOwned(s, config, es, i);
    RunOneMore(s, config, es, i);
    StepKeepsConsistent(Run(s, config, es[..i]), config, es[i]);
  }

  // The cache is the rows of the database all through a run exactly if no handler
  // of the run leaves it stale.
  lemma ConsistentThroughoutIff(s: State, config: Config, es: seq<Event>)
    requires Consistent(s) && Owned(s.db)
    ensures ConsistentThroughout(s, config, es) <==> NeverStale(s, config, es)
  {
    if NeverStale(s, config, es) {
      forall i | 0 <= i <= |es| {
        NeverStaleStays(s, config, es, i);
      }
    }
    if ConsistentThroughout(s, config, es) {
      forall i | 0 <= i < |es| {
        ConsistentIsNotStale(s, config, es, i);
      }
    }
  }

  // In any run of handlers that leave no stale cache, with the database failing
  // reloads at will, samples that are handed out are the rows of the database; a
  // feature just enrolled is among them bit by bit.
  lemma HandedOutAreCurrent(s: State, config: Config, es: seq<Event>, readOk: bool)
    requires Consistent(s) && Owned(s.db) && NeverStale(s, config, es)
    ensures var t := Loaded(Run(s, config, es), readOk);
            t.loaded ==> t.cache == View(Run(s, config, es).db)
  {
    RunKeepsConsistent(s, config, es);
  }

  lemma EnrolledComesBack(s: State, config: Config, e: Event, readOk: bool)
    requires Consistent(s) && Owned(s.db) && e.Enrol? && Enrols(Loaded(s, e.readOk), config, e)
    ensures var t := Loaded(After(s, config, e), readOk);
            t.loaded ==> Decoded(e.sampleId, e.id, e.no, e.name, e.className, e.feature) in t.cache
  {
    var db := After(s, config, e).db;
    RoundTrip(e.feature, []);
    assert Usable(db, e.sampleId);
    ViewIsTheRows(db);
    assert DecodedOf(db, e.sampleId) == Decoded(e.sampleId, e.id, e.no, e.name, e.className, e.feature);
  }

  // The handlers that do not touch the cache do not need to: creating a student
  // without a face, and moving and arranging seats.
  lemma CreateIsNeutral(ss: Students, id: nat, no: string, name: string, className: string)
    requires id !in ss
    ensures Faces(ss, AfterCreateStudent(ss, id, no, name, className))
  {
  }

  lemma MoveIsNeutral(ss: Students, cs: Classes, classId: nat, id: nat, target: int)
    ensures Faces(ss, AfterMove(ss, cs, classId, id, target))
  {
  }

  lemma ArrangeIsNeutral(ss: Students, cs: Classes, classId: nat, ids: seq<nat>)
    requires forall k :: k in ids ==> k in ss
    ensures Faces(ss, AfterArrange(ss, cs, classId, ids))
  {
    if ArrangeError(cs, classId, |ids|).None? {
      ArrangeKeepsFaces(Cleared(ss, cs[classId].name), ids);
    }
  }

  lemma {:induction false} ArrangeKeepsFaces(ss: Students, ids: seq<nat>)
    requires forall k :: k in ids ==> k in ss
    ensures Faces(ss, SeatInOrder(ss, ids))
  {
    if ids != [] {
      ArrangeKeepsFaces(ss, ids[..|ids| - 1]);
    }
  }

  function UsableIn(db: Db, ids: seq<nat>): set<nat> {
    set k | k in ids && Usable(db, k)
  }

  // The first n rows have been decoded.
  ghost predicate Decoding(view: seq<Decoded>, kept: seq<nat>, ids: seq<nat>, n: nat, db: Db) {
    n <= |ids| && IsOrder(kept, db.samples, UsableIn(db, ids[..n])) && Decodes(view, kept, db)
  }

  lemma DecodingStep(view: seq<Decoded>, kept: seq<nat>, ids: seq<nat>, i: nat, db: Db)
    requires IsOrder(ids, db.samples, db.samples.Keys) && i < |ids| && Decoding(view, kept, ids, i, db)
    ensures if Usable(db, ids[i]) then Decoding(view + [DecodedOf(db, ids[i])], kept + [ids[i]], ids, i + 1, db)
            else Decoding(view, kept, ids, i + 1, db)
  {
    KeptGrows(ids, kept, db, i);
  }

  lemma DecodedAll(view: seq<Decoded>, kept: seq<nat>, ids: seq<nat>, db: Db)
    requires IsOrder(ids, db.samples, db.samples.Keys) && Decoding(view, kept, ids, |ids|, db)
    ensures view == View(db)
  {
    assert ids[..|ids|] == ids;
    assert UsableIn(db, ids) == UsableIds(db);
    OrderUnique(kept, OrderedIds(db), db.samples, UsableIds(db));
  }

  lemma KeptGrows(ids: seq<nat>, kept: seq<nat>, db: Db, i: nat)
    requires i < |ids| && IsOrder(ids, db.samples, db.samples.Keys)
    requires IsOrder(kept, db.samples, UsableIn(db, ids[..i]))
    ensures IsOrder(if Usable(db, ids[i]) then kept + [ids[i]] else kept, db.samples, UsableIn(db, ids[..i + 1]))
  {
    assert ids[..i + 1] == ids[..i] + [ids[i]];
    var done, rest := UsableIn(db, ids[..i]), UsableIn(db, ids[..i + 1]);
    forall j | 0 <= j < |kept|
      ensures Precedes(db.samples, kept[j], ids[i])
    {
      assert kept[j] in done;
      var x :| 0 <= x < i && ids[x] == kept[j];
      assert Precedes(db.samples, ids[x], ids[i]);
    }
    assert rest == if Usable(db, ids[i]) then done + {ids[i]} else done;
    if Usable(db, ids[i]) {
      AppendInOrder(kept, db.samples, done, ids[i]);
    }
  }

  lemma AppendInOrder(ids: seq<nat>, samples: map<nat, Sample>, present: set<nat>, k: nat)
    requires IsOrder(ids, samples, present) && k in samples
    requires forall i :: 0 <= i < |ids| ==> Precedes(samples, ids[i], k)
    ensures IsOrder(ids + [k], samples, present + {k})
  {
    assert ids + [k] == ids[..|ids|] + [k] + ids[|ids|..];
    InsertInOrder(ids, samples, k, |ids|);
  }

  ghost predicate Decodes(view: seq<Decoded>, ids: seq<nat>, db: Db) {
    |view| == |ids| && forall j :: 0 <= j < |ids| ==> Usable(db, ids[j]) && view[j] == DecodedOf(db, ids[j])
  }

  // ---- The server ----

  class FaceServer {
    const config: Config
    var db: Db
    var cache: seq<Decoded>
    var loaded: bool

    function Now(): State
      reads this
    {
      State(db, cache, loaded)
    }

    // A server starts with a loaded cache, or without one if the samples cannot
    // be read.
    constructor (config: Config, db: Db, reloadOk: bool)
      ensures this.config == config && Now() == Refreshed(db, reloadOk)
    {
      this.config, this.db := config, db;
      cache, loaded := [], false;
      new;
      var failed := Reload(reloadOk);
    }

    // ListFaceSamples, and decoding what decodes.
    method ReadView() returns (view: seq<Decoded>)
      ensures view == View(db)
    {
      var ids: seq<nat> := [];
      var todo := db.samples.Keys;
      while todo != {}
        invariant todo <= db.samples.Keys
        invariant IsOrder(ids, db.samples, db.samples.Keys - todo)
        decreases todo
      {
        var k :| k in todo;
        ids := InsertRow(ids, k, db.samples.Keys - todo);
        assert db.samples.Keys - todo + {k} == db.samples.Keys - (todo - {k});
        todo := todo - {k};
      }
      assert db.samples.Keys - {} == db.samples.Keys;
      view := DecodeRows(ids);
    }

    // ORDER BY: one more row in its place.
    method InsertRow(ids: seq<nat>, k: nat, ghost present: set<nat>) returns (more: seq<nat>)
      requires present <= db.samples.Keys && IsOrder(ids, db.samples, present) && k in db.samples && k !in present
      ensures IsOrder(more, db.samples, present + {k})
    {
      var p := Place(ids, db.samples, k);
      more := ids[..p] + [k] + ids[p..];
      PlacedInOrder(ids, db.samples, present, k);
    }

    // The loop over the rows; rows that do not decode are skipped.
    method DecodeRows(ids: seq<nat>) returns (view: seq<Decoded>)
      requires IsOrder(ids, db.samples, db.samples.Keys)
      ensures view == View(db)
    {
      view := [];
      ghost var kept: seq<nat> := [];
      for i := 0 to |ids|
        invariant Decoding(view, kept, ids, i, db)
      {
        assert ids[i] in ids;
        DecodingStep(view, kept, ids, i, db);
        var row := DecodeRow(ids[i]);
        if row.Some? {
          view := view + [row.value];
          kept := kept + [ids[i]];
        }
      }
      DecodedAll(view, kept, ids, db);
    }

    method DecodeRow(k: nat) returns (row: Option<Decoded>)
      requires k in db.samples
      ensures row == if Usable(db, k) then Some(DecodedOf(db, k)) else None
    {
      var sample := db.samples[k];
      if sample.student !in db.students {
        return None;
      }
      var feature := DecodeFeature(sample.embedding);
      if feature.None? {
        return None;
      }
      var student := db.students[sample.student];
      return Some(Decoded(k, sample.student, student.no, student.name, student.className, feature.value));
    }

    method Reload(ok: bool) returns (failed: bool)
      modifies this`cache, this`loaded
      ensures failed == !ok
      ensures Now() == if ok then State(db, View(db), true) else old(Now())
    {
      if !ok {
        return true;
      }
      var view := ReadView();
      cache, loaded := view, true;
      return false;
    }

    method CachedFaceSamples(readOk: bool) returns (result: Option<seq<Decoded>>)
      modifies this`cache, this`loaded
      ensures Now() == Loaded(old(Now()), readOk)
      ensures result == if loaded then Some(cache) else None
    {
      if loaded {
        return Some(cache);
      }
      var failed := Reload(readOk);
      if failed {
        return None;
      }
      return Some(cache);
    }

    method RefreshAfterMutation(reloadOk: bool)
      modifies this`cache, this`loaded
      ensures Now() == Refreshed(db, reloadOk)
    {
      var failed := Reload(reloadOk);
      if !failed {
        return;
      }
      cache, loaded := [], false;
    }

    // ---- Handlers ----

    method CompareFeature(feature: Feature, target: nat, readOk: bool) returns (result: Option<Comparison>)
      modifies this`cache, this`loaded
      ensures Now() == Loaded(old(Now()), readOk)
      ensures result == if loaded then Some(Compare(config, cache, feature, target)) else None
    {
      var samples := CachedFaceSamples(readOk);
      if samples.None? {
        return None;
      }
      var c := Comparison(false, 0.0, None, 0.0);
      for i := 0 to |cache|
        invariant c == Compare(config, cache[..i], feature, target)
      {
        assert cache[..i + 1][..i] == cache[..i];
        var score := config.similarity(feature, cache[i].feature);
        if target > 0 && cache[i].studentId == target {
          c := c.(sameFound := true);
          if score > c.sameScore {
            c := c.(sameScore := score);
          }
          continue;
        }
        if score > c.otherScore {
          c := c.(other := Some(cache[i].studentId), otherScore := score);
        }
      }
      assert cache[..|cache|] == cache;
      return Some(c);
    }

    method CreateEnrollment(id: nat, sampleId: nat, no: string, name: string, className: string, feature: Feature,
                            createdAt: int,
                            readOk: bool, checkOk: bool, reloadOk: bool)
      requires id !in db.students && sampleId !in db.samples
      modifies this`db, this`cache, this`loaded
      ensures Now() == After(old(Now()), config,
                             Enrol(id, sampleId, no, name, className, feature, createdAt, readOk, checkOk, reloadOk))
    {
      var c := CompareFeature(feature, 0, readOk);
      if c.None? || Duplicate(config, c.value) {
        return;
      }
      if !checkOk || !ClassNamed(db.classes, className) {
        return;
      }
      if CreateStudentError(db.students, id, no, name).Some? || feature == [] {
        return;
      }
      db := db.(students := db.students[id := Student(no, name, className, 0)],
                samples := db.samples[sampleId := Sample(id, Encode(feature), createdAt)]);
      RefreshAfterMutation(reloadOk);
    }

    method AddFaceSample(studentId: nat, sampleId: nat, feature: Feature, createdAt: int, readOk: bool, reloadOk: bool)
      requires sampleId !in db.samples
      modifies this`db, this`cache, this`loaded
      ensures Now() == After(old(Now()), config, AddSample(studentId, sampleId, feature, createdAt, readOk, reloadOk))
    {
      var result := CompareFeature(feature, studentId, readOk);
      if result.None? {
        return;
      }
      var c := result.value;
      if c.other.Some? && c.otherScore >= config.threshold && (!c.sameFound || c.otherScore > c.sameScore) {
        return;
      }
      if c.sameFound && c.sameScore < config.threshold {
        return;
      }
      if c.sameFound && c.sameScore >= 0.995 {
        return;
      }
      if feature == [] || studentId !in db.students {
        return;
      }
      db := db.(samples := db.samples[sampleId := Sample(studentId, Encode(feature), createdAt)]);
      RefreshAfterMutation(reloadOk);
    }

    method DeleteFaceSample(studentId: nat, sampleId: nat, reloadOk: bool)
      modifies this`db, this`cache, this`loaded
      ensures Now() == After(old(Now()), config, DeleteSample(studentId, sampleId, reloadOk))
      ensures db.students == old(db).students && db.classes == old(db).classes
      ensures if sampleId in old(db).samples && old(db).samples[sampleId].student == studentId
              then db.samples == old(db).samples - {sampleId} && loaded == reloadOk
                   && cache == (if reloadOk then View(db) else [])
              else Now() == old(Now())
    {
      if sampleId !in db.samples || db.samples[sampleId].student != studentId {
        return;
      }
      db := db.(samples := db.samples - {sampleId});
      RefreshAfterMutation(reloadOk);
    }

    // Deleting a student deletes the samples with it.
    method DeleteStudent(id: nat, reloadOk: bool)
      modifies this`db, this`cache, this`loaded
      ensures Now() == After(old(Now()), config, RemoveStudent(id, reloadOk))
      ensures db.students == old(db).students - {id} && db.classes == old(db).classes
      ensures if id in old(db).students
              then (forall k :: k in db.samples <==> k in old(db).samples && old(db).samples[k].student != id)
                   && (forall k :: k in db.samples ==> db.samples[k] == old(db).samples[k])
                   && loaded == reloadOk && cache == (if reloadOk then View(db) else [])
              else Now() == old(Now())
    {
      if id !in db.students {
        return;
      }
      db := WithoutStudent(db, id);
      RefreshAfterMutation(reloadOk);
    }

    // The settings handler, and renaming with the settings as they are.
    method UpdateClassSettings(id: nat, name: string, rows: int, perRow: int, lateAfter: string, deadline: string,
                               readFails: bool, reloadOk: bool)
      modifies this`db, this`cache, this`loaded
      ensures Now() == After(old(Now()), config, UpdateClass(id, name, rows, perRow, lateAfter, deadline, readFails,
                                                             reloadOk))
    {
      if UpdateClassError(db.students, db.classes, config.clock, id, name, rows, perRow, lateAfter, deadline).Some? {
        return;
      }
      var (ss, cs) := AfterUpdateClass(db.students, db.classes, config.clock, id, name, rows, perRow, lateAfter,
                                       deadline);
      db := db.(students := ss, classes := cs);
      if readFails {
        return;
      }
      RefreshAfterMutation(reloadOk);
    }
  }
}
