// When a face is enrolled, added or refused, and what the handlers make of the
// database and the cache (internal/web/enrollment.go, face_cache.go, students.go).
module FaceMeaning {
  import opened Prelude
  import opened School
  import opened FaceCodec
  import opened FaceCache

  // ---- The rows ----

  predicate Older(db: Db, v: Decoded, w: Decoded) {
    && v.sampleId in db.samples && w.sampleId in db.samples
    && (v.studentId < w.studentId
        || (v.studentId == w.studentId
            && (db.samples[v.sampleId].createdAt < db.samples[w.sampleId].createdAt
                || (db.samples[v.sampleId].createdAt == db.samples[w.sampleId].createdAt && v.sampleId < w.sampleId))))
  }

  // The samples that can be handed out: those of existing students that decode, each
  // with its student's data; by student, then by age, then by id.
  lemma ViewMeans(db: Db)
    ensures forall v :: v in View(db) ==>
              && v.sampleId in db.samples && v.studentId == db.samples[v.sampleId].student
              && Decode(db.samples[v.sampleId].embedding) == Some(v.feature)
              && v.studentId in db.students && v.no == db.students[v.studentId].no
              && v.name == db.students[v.studentId].name && v.className == db.students[v.studentId].className
    ensures forall k ::
              (k in db.samples && db.samples[k].student in db.students && Decode(db.samples[k].embedding).Some?) ==>
                exists v :: v in View(db) && v.sampleId == k
    ensures forall i, j :: 0 <= i < j < |View(db)| ==> Older(db, View(db)[i], View(db)[j])
  {
    ViewIsTheRows(db);
    forall v | v in View(db)
      ensures Usable(db, v.sampleId) && v == DecodedOf(db, v.sampleId)
    {
      var i :| 0 <= i < |View(db)| && View(db)[i] == v;
    }
    forall k | k in db.samples && db.samples[k].student in db.students && Decode(db.samples[k].embedding).Some?
      ensures exists v :: v in View(db) && v.sampleId == k
    {
      assert Usable(db, k) && DecodedOf(db, k) in View(db);
    }
    forall i, j | 0 <= i < j < |View(db)|
      ensures Older(db, View(db)[i], View(db)[j])
    {
      assert Precedes(db.samples, View(db)[i].sampleId, View(db)[j].sampleId);
      assert View(db)[i] in View(db) && View(db)[j] in View(db);
    }
  }

  // ---- A comparison ----

  predicate IsOf(d: Decoded, target: nat) {
    target > 0 && d.studentId == target
  }

  // The best score of the samples of the student, at least 0.
  lemma {:induction false} SameMeans(config: Config, ds: seq<Decoded>, feature: Feature, target: nat)
    ensures var c := Compare(config, ds, feature, target);
            && (c.sameFound <==> exists i :: 0 <= i < |ds| && IsOf(ds[i], target))
            && c.sameScore >= 0.0
            && (forall i :: 0 <= i < |ds| && IsOf(ds[i], target) ==>
                  config.similarity(feature, ds[i].feature) <= c.sameScore)
            && (c.sameScore > 0.0 ==>
                  exists i :: 0 <= i < |ds| && IsOf(ds[i], target)
                              && config.similarity(feature, ds[i].feature) == c.sameScore)
  {
    if ds != [] {
      var n := |ds| - 1;
      SameMeans(config, ds[..n], feature, target);
      var before, after := Compare(config, ds[..n], feature, target), Compare(config, ds, feature, target);
      assert forall i :: 0 <= i < n ==> ds[..n][i] == ds[i];
      if before.sameFound {
        var i :| 0 <= i < n && IsOf(ds[..n][i], target);
        assert IsOf(ds[i], target);
      }
      if before.sameScore > 0.0 {
        var i :| 0 <= i < n && IsOf(ds[..n][i], target)
                 && config.similarity(feature, ds[..n][i].feature) == before.sameScore;
        assert IsOf(ds[i], target) && config.similarity(feature, ds[i].feature) == before.sameScore;
      }
    }
  }

  // The best score of the other samples, at least 0, and whose it is.
  lemma {:induction false} OtherMeans(config: Config, ds: seq<Decoded>, feature: Feature, target: nat)
    ensures var c := Compare(config, ds, feature, target);
            && c.otherScore >= 0.0 && (c.other.Some? <==> c.otherScore > 0.0)
            && (forall i :: 0 <= i < |ds| && !IsOf(ds[i], target) ==>
                  config.similarity(feature, ds[i].feature) <= c.otherScore)
            && (c.other.Some? ==>
                  exists i :: 0 <= i < |ds| && !IsOf(ds[i], target) && ds[i].studentId == c.other.value
                              && config.similarity(feature, ds[i].feature) == c.otherScore)
  {
    if ds != [] {
      var n := |ds| - 1;
      OtherMeans(config, ds[..n], feature, target);
      var before, after := Compare(config, ds[..n], feature, target), Compare(config, ds, feature, target);
      assert forall i :: 0 <= i < n ==> ds[..n][i] == ds[i];
      if before.other.Some? {
        var i :| 0 <= i < n && !IsOf(ds[..n][i], target) && ds[..n][i].studentId == before.other.value
                 && config.similarity(feature, ds[..n][i].feature) == before.otherScore;
        assert !IsOf(ds[i], target) && config.similarity(feature, ds[i].feature) == before.otherScore;
      }
    }
  }

  // ---- What a handler compares with, and leaves behind ----

  // The samples a handler compares with: the cache, or the rows if none is loaded.
  ghost function Known(s: State): seq<Decoded> {
    if s.loaded then s.cache else View(s.db)
  }

  predicate CanRead(s: State, readOk: bool) {
    s.loaded || readOk
  }

  // Nothing has changed, but the samples may have been loaded.
  ghost predicate OnlyRead(s: State, t: State, readOk: bool) {
    t.db == s.db && t.loaded == CanRead(s, readOk) && t.cache == if CanRead(s, readOk) then Known(s) else s.cache
  }

  // The new rows are cached, or nothing is if they cannot be read.
  ghost predicate Renewed(t: State, reloadOk: bool) {
    t.loaded == reloadOk && t.cache == if reloadOk then View(t.db) else []
  }

  // ---- Enrolment ----

  // No sample of anybody reaches the threshold.
  predicate Unknown(config: Config, ds: seq<Decoded>, feature: Feature) {
    forall i :: 0 <= i < |ds| ==> config.similarity(feature, ds[i].feature) < config.threshold
  }

  ghost predicate MayEnrol(s: State, config: Config, e: Event)
    requires e.Enrol?
  {
    && CanRead(s, e.readOk) && e.checkOk && e.feature != []
    && Unknown(config, Known(s), e.feature)
    && (exists c :: c in s.db.classes && s.db.classes[c].name == e.className)
    && e.no != "" && e.name != "" && forall k :: k in s.db.students ==> s.db.students[k].no != e.no
  }

  // A face is enrolled exactly if nobody known looks like it, the class exists, and
  // number and name are given and the number is free. Then the student and the sample
  // are new rows and the cache is renewed.
  lemma EnrolMeans(s: State, config: Config, e: Event)
    requires config.threshold > 0.0 && e.Enrol? && e.id !in s.db.students && e.sampleId !in s.db.samples
    ensures var t := After(s, config, e);
            if MayEnrol(s, config, e) then
              && t.db.students == s.db.students[e.id := Student(e.no, e.name, e.className, 0)]
              && t.db.classes == s.db.classes
              && t.db.samples == s.db.samples[e.sampleId := Sample(e.id, Encode(e.feature), e.createdAt)]
              && Renewed(t, e.reloadOk)
            else OnlyRead(s, t, e.readOk)
  {
    EnrolsIff(s, config, e);
  }

  lemma EnrolsIff(s: State, config: Config, e: Event)
    requires config.threshold > 0.0 && e.Enrol? && e.id !in s.db.students && e.sampleId !in s.db.samples
    ensures Enrols(Loaded(s, e.readOk), config, e) <==> MayEnrol(s, config, e)
  {
    UnknownIff(config, Known(s), e.feature);
  }

  lemma UnknownIff(config: Config, ds: seq<Decoded>, feature: Feature)
    requires config.threshold > 0.0
    ensures Unknown(config, ds, feature) <==> !Duplicate(config, Compare(config, ds, feature, 0))
  {
    DuplicateMeans(config, ds, feature, 0);
  }

  // ---- A further sample ----

  // The face is the student's: no other student's sample that reaches the threshold is
  // closer than every sample of the student, the student's samples, if there are any,
  // reach the threshold somewhere, and none is so close that it adds nothing.
  ghost predicate Fits(config: Config, ds: seq<Decoded>, feature: Feature, target: nat) {
    && (forall i :: 0 <= i < |ds| && !IsOf(ds[i], target)
                    && config.similarity(feature, ds[i].feature) >= config.threshold ==>
          exists j :: 0 <= j < |ds| && IsOf(ds[j], target)
                      && config.similarity(feature, ds[j].feature) >= config.similarity(feature, ds[i].feature))
    && ((exists i :: 0 <= i < |ds| && IsOf(ds[i], target)) ==>
          exists i :: 0 <= i < |ds| && IsOf(ds[i], target)
                      && config.similarity(feature, ds[i].feature) >= config.threshold)
    && forall i :: 0 <= i < |ds| && IsOf(ds[i], target) ==> config.similarity(feature, ds[i].feature) < 0.995
  }

  lemma MayAddIff(config: Config, ds: seq<Decoded>, feature: Feature, target: nat)
    requires config.threshold > 0.0
    ensures MayAdd(config, Compare(config, ds, feature, target)) <==> Fits(config, ds, feature, target)
  {
    var c := Compare(config, ds, feature, target);
    SameMeans(config, ds, feature, target);
    OtherMeans(config, ds, feature, target);
    if Fits(config, ds, feature, target) && Duplicate(config, c) {
      var i :| 0 <= i < |ds| && !IsOf(ds[i], target) && config.similarity(feature, ds[i].feature) == c.otherScore;
      var j :| 0 <= j < |ds| && IsOf(ds[j], target)
               && config.similarity(feature, ds[j].feature) >= config.similarity(feature, ds[i].feature);
      assert c.sameFound && c.otherScore <= c.sameScore;
    }
    if MayAdd(config, c) {
      FitsIfMayAdd(config, ds, feature, target);
    }
  }

  lemma FitsIfMayAdd(config: Config, ds: seq<Decoded>, feature: Feature, target: nat)
    requires config.threshold > 0.0 && MayAdd(config, Compare(config, ds, feature, target))
    ensures Fits(config, ds, feature, target)
  {
    var c := Compare(config, ds, feature, target);
    SameMeans(config, ds, feature, target);
    OtherMeans(config, ds, feature, target);
    if c.sameScore > 0.0 {
      var j :| 0 <= j < |ds| && IsOf(ds[j], target) && config.similarity(feature, ds[j].feature) == c.sameScore;
      assert c.sameFound;
    }
  }

  ghost predicate MayAddSample(s: State, config: Config, e: Event)
    requires e.AddSample?
  {
    && CanRead(s, e.readOk) && e.studentId in s.db.students && e.feature != []
    && Fits(config, Known(s), e.feature, e.studentId)
  }

  // A sample is added exactly if the student exists and the face is the student's but
  // not the same once more.
  lemma AddMeans(s: State, config: Config, e: Event)
    requires config.threshold > 0.0 && e.AddSample? && e.sampleId !in s.db.samples
    ensures var t := After(s, config, e);
            if MayAddSample(s, config, e) then
              && t.db.students == s.db.students && t.db.classes == s.db.classes
              && t.db.samples == s.db.samples[e.sampleId := Sample(e.studentId, Encode(e.feature), e.createdAt)]
              && Renewed(t, e.reloadOk)
            else OnlyRead(s, t, e.readOk)
  {
    AddsIff(s, config, e);
  }

  lemma AddsIff(s: State, config: Config, e: Event)
    requires config.threshold > 0.0 && e.AddSample? && e.sampleId !in s.db.samples
    ensures Adds(Loaded(s, e.readOk), config, e) <==> MayAddSample(s, config, e)
  {
    MayAddIff(config, Known(s), e.feature, e.studentId);
  }
}
