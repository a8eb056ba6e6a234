// How a photo of an archive is sorted, and which requests store it, in terms of the
// faces compared and with the thresholds of internal/web/photo_import.go.
module ImportMeaning {
  import opened Prelude
  import opened Folding
  import opened School
  import opened FaceCodec
  import opened FaceCache
  import opened FaceMeaning
  import opened PhotoImport

  // ---- Sorting ----

  predicate Reaches(config: Config, known: seq<Decoded>, feature: Feature, score: real) {
    exists k :: 0 <= k < |known| && config.similarity(feature, known[k].feature) >= score
  }

  // The student of the most similar sample, with its score.
  predicate Best(config: Config, known: seq<Decoded>, feature: Feature, item: Item) {
    && (forall k :: 0 <= k < |known| ==> config.similarity(feature, known[k].feature) <= item.similarity)
    && exists k :: 0 <= k < |known| && item.existing == Some(known[k].studentId)
                   && config.similarity(feature, known[k].feature) == item.similarity
  }

  // The first earlier ready photo of the same face, with its score.
  predicate Original(config: Config, items: seq<Item>, feature: Feature, i: nat) {
    && i < |items| && items[i].status == Ready
    && config.similarity(feature, items[i].feature) >= config.threshold
    && forall j :: 0 <= j < i && items[j].status == Ready ==>
         config.similarity(feature, items[j].feature) < config.threshold
  }

  lemma FirstMatchNext(config: Config, ready: seq<Item>, last: Item, feature: Feature)
    ensures var earlier := FirstMatch(config, ready, feature);
            FirstMatch(config, ready + [last], feature) ==
              if earlier.Some? then earlier
              else if config.similarity(feature, last.feature) >= config.threshold then Some(last) else None
  {
    assert (ready + [last])[..|ready|] == ready;
  }

  // The match found is the first original, and none is found only if there is none.
  ghost predicate Founded(config: Config, items: seq<Item>, feature: Feature, found: Option<Item>) {
    if found.Some? then exists i: nat :: Original(config, items, feature, i) && items[i] == found.value
    else forall i: nat :: !Original(config, items, feature, i)
  }

  lemma {:induction false} FirstIsOriginal(config: Config, items: seq<Item>, feature: Feature)
    ensures Founded(config, items, feature, FirstMatch(config, ReadyItems(items), feature))
  {
    if items != [] {
      var before, last := items[..|items| - 1], items[|items| - 1];
      var ready := ReadyItems(before);
      FirstIsOriginal(config, before, feature);
      FirstMatchNext(config, ready, last, feature);
      ReadyNext(before, last);
      assert ready + [] == ready && before + [last] == items;
      FoundedNext(config, before, last, feature, FirstMatch(config, ready, feature));
    }
  }

  lemma FoundedNext(config: Config, before: seq<Item>, last: Item, feature: Feature, found: Option<Item>)
    requires Founded(config, before, feature, found)
    ensures Founded(config, before + [last], feature,
                    if found.None? && last.status.Ready?
                       && config.similarity(feature, last.feature) >= config.threshold then Some(last) else found)
  {
    var items, n: nat := before + [last], |before|;
    forall i: nat | i < n
      ensures Original(config, items, feature, i) <==> Original(config, before, feature, i)
    {
      assert forall j :: 0 <= j <= i ==> items[j] == before[j];
    }
    if found.Some? {
      var i: nat :| Original(config, before, feature, i) && before[i] == found.value;
      assert Original(config, items, feature, i) && items[i] == found.value;
    } else {
      NoEarlier(config, before, feature);
      LastOriginal(config, before, last, feature);
    }
  }

  lemma LastOriginal(config: Config, before: seq<Item>, last: Item, feature: Feature)
    requires forall i :: 0 <= i < |before| && before[i].status == Ready ==>
               config.similarity(feature, before[i].feature) < config.threshold
    ensures Original(config, before + [last], feature, |before|) <==>
            last.status.Ready? && config.similarity(feature, last.feature) >= config.threshold
  {
    assert forall j :: 0 <= j < |before| ==> (before + [last])[j] == before[j];
  }

  lemma {:induction false} NoEarlier(config: Config, items: seq<Item>, feature: Feature)
    requires forall i: nat :: !Original(config, items, feature, i)
    ensures forall i :: 0 <= i < |items| && items[i].status == Ready ==>
              config.similarity(feature, items[i].feature) < config.threshold
  {
    if items != [] {
      var n := |items| - 1;
      assert forall i :: 0 <= i < n ==> items[..n][i] == items[i];
      forall i: nat
        ensures !Original(config, items[..n], feature, i)
      {
        assert !Original(config, items, feature, i);
      }
      NoEarlier(config, items[..n], feature);
      assert !Original(config, items, feature, n);
    }
  }

  // A photo is of a known face if some sample reaches the threshold, to be reviewed if
  // one comes within 0.04 of it but not below 0.55, a duplicate if an earlier ready
  // photo reaches the threshold, and ready otherwise.
  lemma ClassifyTells(config: Config, known: seq<Decoded>, items: seq<Item>, fileName: string, feature: Feature)
    requires config.threshold > 0.0
    ensures var item := Classify(config, known, items, Photo.Usable(fileName, feature));
            var isKnown := Reaches(config, known, feature, config.threshold);
            var isClose := exists k :: 0 <= k < |known| && config.similarity(feature, known[k].feature) >= 0.55
                                       && config.similarity(feature, known[k].feature) >= config.threshold - 0.04;
            && item.id == |items| + 1 && item.fileName == fileName && item.feature == feature && !item.committed
            && (item.status == Existing <==> isKnown)
            && (item.status == Review <==> !isKnown && isClose)
            && (item.status == PackageDuplicate <==>
                  !isKnown && !isClose && exists i: nat :: Original(config, items, feature, i))
            && (item.status == Ready <==>
                  !isKnown && !isClose && forall i: nat :: !Original(config, items, feature, i))
            && (isKnown || isClose ==> Best(config, known, feature, item))
            && (!isKnown && !isClose ==> item.existing == None)
            && (item.status == PackageDuplicate ==>
                  exists i: nat :: Original(config, items, feature, i) && item.duplicateFile == items[i].fileName
                                   && item.similarity == config.similarity(feature, items[i].feature))
  {
    OtherMeans(config, known, feature, 0);
    FirstIsOriginal(config, items, feature);
  }

  // ---- The archive ----

  predicate Shows(photo: Photo) {
    photo != NoFile && photo != Ignored
  }

  // The k-th item is the photo at[k], compared with the items before it, and every
  // photo is one.
  ghost predicate ItemsAt(config: Config, known: seq<Decoded>, photos: seq<Photo>, items: seq<Item>, at: seq<nat>) {
    && |at| == |items|
    && (forall k: nat :: k < |items| ==>
          && at[k] < |photos| && Shows(photos[at[k]])
          && items[k] == Classify(config, known, items[..k], photos[at[k]]))
    && (forall j: nat, k: nat :: j < k < |at| ==> at[j] < at[k])
    && (forall i: nat :: i < |photos| && Shows(photos[i]) ==> i in at)
  }

  function ItemOf(config: Config, known: seq<Decoded>, items: seq<Item>, photo: Photo): Item {
    if Shows(photo) then Classify(config, known, items, photo)
    else Item(0, "", [], Rejected, None, 0.0, "", false)
  }

  // Every photo of the archive is one item, in the order of the archive.
  lemma EveryPhotoIsAnItem(config: Config, known: seq<Decoded>, photos: seq<Photo>)
    ensures exists at: seq<nat> :: ItemsAt(config, known, photos, ItemsOf(config, known, photos), at)
  {
    var make := (items: seq<Item>, photo: Photo) => ItemOf(config, known, items, photo);
    ItemsAreCollected(config, known, photos, make);
    CollectMakes(Shows, make, photos);
    var at: seq<nat> :| MadeAt(Shows, make, photos, Collect(Shows, make, photos), at);
    MadeAreItems(config, known, photos, Collect(Shows, make, photos), at, make);
  }

  lemma MadeAreItems(config: Config, known: seq<Decoded>, photos: seq<Photo>, items: seq<Item>, at: seq<nat>,
                     make: (seq<Item>, Photo) -> Item)
    requires MadeAt(Shows, make, photos, items, at)
    requires forall before: seq<Item>, photo: Photo :: make(before, photo) == ItemOf(config, known, before, photo)
    ensures ItemsAt(config, known, photos, items, at)
  {
    forall k: nat | k < |items|
      ensures Shows(photos[at[k]]) && items[k] == Classify(config, known, items[..k], photos[at[k]])
    {
      assert items[k] == make(items[..k], photos[at[k]]);
    }
  }

  lemma {:induction false} ItemsAreCollected(config: Config, known: seq<Decoded>, photos: seq<Photo>,
                                             make: (seq<Item>, Photo) -> Item)
    requires forall items: seq<Item>, photo: Photo :: make(items, photo) == ItemOf(config, known, items, photo)
    ensures ItemsOf(config, known, photos) == Collect(Shows, make, photos)
  {
    if photos != [] {
      ItemsAreCollected(config, known, photos[..|photos| - 1], make);
    }
  }

  // ---- A new student ----

  ghost predicate MayCreate(config: Config, s: State, item: Item, r: Request) {
    && item.status == Ready && item.feature != [] && r.no != "" && r.name != ""
    && CanRead(s, r.readOk) && FaceMeaning.Unknown(config, FaceMeaning.Known(s), item.feature)
    && r.writeOk && forall k :: k in s.db.students ==> s.db.students[k].no != r.no
  }

  // A ready photo becomes a student exactly if number and name are given, nobody known
  // looks like it and the number is free.
  lemma NewMeans(config: Config, s: State, item: Item, r: Request)
    requires config.threshold > 0.0 && r.studentId !in s.db.students
    ensures var h := HandleNew(config, s, item, r);
            && (h.outcome == Imported <==> MayCreate(config, s, item, r))
            && (h.outcome == Imported <==> h.committed) && h.outcome != Skipped
            && h.student == (if h.committed then Some(r.studentId) else None)
            && h.server.db == if h.committed then WithStudent(s.db, item.feature, r) else s.db
  {
    UnknownIff(config, FaceMeaning.Known(s), item.feature);
  }

  // One more student without a seat, and one more sample.
  function WithStudent(db: Db, feature: Feature, r: Request): Db {
    Db(db.students[r.studentId := Student(r.no, r.name, r.className, 0)], db.classes,
       db.samples[r.sampleId := Sample(r.studentId, Encode(feature), r.createdAt)])
  }

  // ---- A further sample ----

  predicate OwnReaches(config: Config, known: seq<Decoded>, feature: Feature, target: nat, score: real) {
    exists k :: 0 <= k < |known| && IsOf(known[k], target) && config.similarity(feature, known[k].feature) >= score
  }

  // The student looks like the face, and no other student more so.
  predicate RightStudent(config: Config, known: seq<Decoded>, feature: Feature, target: nat) {
    && OwnReaches(config, known, feature, target, config.threshold)
    && forall k :: 0 <= k < |known| && !IsOf(known[k], target)
                   && config.similarity(feature, known[k].feature) >= config.threshold ==>
         OwnReaches(config, known, feature, target, config.similarity(feature, known[k].feature))
  }

  predicate Confirmed(config: Config, s: State, item: Item, r: Request, known: seq<Decoded>) {
    && item.existing.Some? && item.existing.value > 0 && CanRead(s, r.readOk)
    && RightStudent(config, known, item.feature, item.existing.value)
  }

  // The student goes to the class; a seat is given up on the way.
  predicate Goes(config: Config, s: State, item: Item, r: Request, known: seq<Decoded>) {
    && Confirmed(config, s, item, r, known)
    && !OwnReaches(config, known, item.feature, item.existing.value, 0.995)
    && r.className != "" && item.existing.value in s.db.students
  }

  lemma RightIff(config: Config, known: seq<Decoded>, feature: Feature, target: nat)
    requires config.threshold > 0.0
    ensures var c := Compare(config, known, feature, target);
            && (RightStudent(config, known, feature, target) <==>
                  c.sameFound && c.sameScore >= config.threshold
                  && !(Duplicate(config, c) && c.otherScore > c.sameScore))
            && (OwnReaches(config, known, feature, target, 0.995) <==> c.sameScore >= 0.995)
  {
    var c := Compare(config, known, feature, target);
    SameMeans(config, known, feature, target);
    OtherMeans(config, known, feature, target);
    if c.sameScore > 0.0 {
      var j :| 0 <= j < |known| && IsOf(known[j], target)
               && config.similarity(feature, known[j].feature) == c.sameScore;
      assert forall score :: score <= c.sameScore ==> OwnReaches(config, known, feature, target, score);
    }
    if RightStudent(config, known, feature, target) && Duplicate(config, c) {
      var i :| 0 <= i < |known| && !IsOf(known[i], target)
               && config.similarity(feature, known[i].feature) == c.otherScore;
    }
  }

  // A photo of a known face is a further sample exactly if the student looks like it,
  // nobody else more so, no sample of the student is nearly the same, and the student
  // could change class; what is nearly the same is skipped for good.
  lemma SupplementMeans(config: Config, s: State, item: Item, r: Request)
    requires config.threshold > 0.0
    ensures var h, known := HandleSupplement(config, s, item, r), FaceMeaning.Known(s);
            && (h.outcome == Skipped <==>
                  Confirmed(config, s, item, r, known)
                  && OwnReaches(config, known, item.feature, item.existing.value, 0.995))
            && (h.outcome == Imported <==> Goes(config, s, item, r, known) && r.writeOk && item.feature != [])
            && (h.committed <==> h.outcome != Failed)
  {
    if item.existing.Some? {
      RightIff(config, FaceMeaning.Known(s), item.feature, item.existing.value);
    }
  }

  // What it writes; the class is changed even if the sample then cannot be written.
  lemma SupplementChanges(config: Config, s: State, item: Item, r: Request)
    requires config.threshold > 0.0
    ensures var h, goes := HandleSupplement(config, s, item, r), Goes(config, s, item, r, FaceMeaning.Known(s));
            && h.server.db.classes == s.db.classes
            && h.server.db.students == if goes then InClass(s.db.students, item.existing.value, r.className)
                                       else s.db.students
  {
    GoesIff(config, s, item, r);
    ChangesIf(config, s, item, r, Goes(config, s, item, r, FaceMeaning.Known(s)));
  }

  // The same in terms of the comparison.
  predicate GoesBy(config: Config, c: Comparison, s: State, r: Request, target: nat) {
    && target > 0 && CanRead(s, r.readOk) && r.className != "" && target in s.db.students
    && c.sameFound && config.threshold <= c.sameScore < 0.995
    && !(Duplicate(config, c) && c.otherScore > c.sameScore)
  }

  lemma GoesIff(config: Config, s: State, item: Item, r: Request)
    requires config.threshold > 0.0
    ensures Goes(config, s, item, r, FaceMeaning.Known(s)) <==>
            item.existing.Some?
            && GoesBy(config, Compare(config, FaceMeaning.Known(s), item.feature, item.existing.value), s, r,
                      item.existing.value)
  {
    if item.existing.Some? {
      RightIff(config, FaceMeaning.Known(s), item.feature, item.existing.value);
    }
  }

  lemma ChangesIf(config: Config, s: State, item: Item, r: Request, goes: bool)
    requires goes <==> item.existing.Some?
                       && GoesBy(config, Compare(config, FaceMeaning.Known(s), item.feature, item.existing.value), s,
                                 r, item.existing.value)
    ensures var db := HandleSupplement(config, s, item, r).server.db;
            && db.classes == s.db.classes
            && db.students == if goes then InClass(s.db.students, item.existing.value, r.className) else s.db.students
  {
  }

  lemma SupplementStores(config: Config, s: State, item: Item, r: Request)
    ensures var h := HandleSupplement(config, s, item, r);
            && h.student == (if h.outcome == Imported then item.existing else None)
            && h.server.db.samples == if h.outcome == Imported then WithSample(s.db.samples, item, r) else s.db.samples
  {
  }

  function InClass(ss: Students, id: nat, className: string): Students
    requires id in ss
  {
    if ss[id].className == className then ss else ss[id := ss[id].(className := className, seat := 0)]
  }

  function WithSample(samples: map<nat, Sample>, item: Item, r: Request): map<nat, Sample> {
    if item.existing.None? then samples
    else samples[r.sampleId := Sample(item.existing.value, Encode(item.feature), r.createdAt)]
  }

  // ---- A request ----

  // Whether the item is taken up at all.
  ghost predicate TakenUp(s: State, item: Item, r: Request) {
    && r.action != Skip && !item.committed && (item.status == Ready || item.status == Existing)
    && r.checkOk && exists c :: c in s.db.classes && s.db.classes[c].name == r.className
  }

  // The first item with the id is answered: skipped if it is to be or was done before,
  // stored as a new student or a further sample if it is taken up for that, and failed
  // otherwise; nothing else of the session changes.
  lemma AnswerMeans(config: Config, s: Session, r: Request)
    ensures var (t, outcome) := Answer(config, s, r);
            && |t.items| == |s.items|
            && (if exists i :: 0 <= i < |s.items| && s.items[i].id == r.id then
                  exists i :: 0 <= i < |s.items| && Answered(config, s, t, outcome, i, r)
                else t == s && outcome == Failed)
  {
    var i := FindItem(s.items, r.id);
    if i < |s.items| {
      var (t, outcome) := Answer(config, s, r);
      assert TakenUp(s.server, s.items[i], r) ==> ClassNamed(s.server.db.classes, r.className);
      assert Answered(config, s, t, outcome, i, r);
    }
  }

  ghost predicate Answered(config: Config, s: Session, t: Session, outcome: Outcome, i: nat, r: Request)
    requires |t.items| == |s.items|
  {
    && i < |s.items| && s.items[i].id == r.id && (forall j :: 0 <= j < i ==> s.items[j].id != r.id)
    && (forall j :: 0 <= j < |s.items| && j != i ==> t.items[j] == s.items[j])
    && if TakenUp(s.server, s.items[i], r) && r.action == New then
         Follows(t, HandleNew(config, s.server, s.items[i], r), s.items[i], i, outcome)
       else if TakenUp(s.server, s.items[i], r) && r.action == Supplement then
         Follows(t, HandleSupplement(config, s.server, s.items[i], r), s.items[i], i, outcome)
       else
         && t.items == s.items && t.server == s.server && t.stored == s.stored
         && outcome == if r.action == Skip || s.items[i].committed then Skipped else Failed
  }

  predicate Follows(t: Session, h: Handled, item: Item, i: nat, outcome: Outcome)
    requires i < |t.items|
  {
    t.server == h.server && outcome == h.outcome && t.items[i] == item.(committed := item.committed || h.committed)
  }

  // ---- A commit ----

  // The answers of a commit, each given on what the ones before it left.
  ghost function OutcomesOf(config: Config, s: Session, rs: seq<Request>): seq<Outcome> {
    seq(|rs|, i requires 0 <= i < |rs| => Answer(config, AnswerAll(config, s, rs[..i]).0, rs[i]).1)
  }

  ghost function Among(outcomes: seq<Outcome>, outcome: Outcome): set<nat> {
    set i: nat | i < |outcomes| && outcomes[i] == outcome
  }

  function CountAll(outcomes: seq<Outcome>): Counts {
    if outcomes == [] then Counts(0, 0, 0) else Count(CountAll(outcomes[..|outcomes| - 1]), outcomes[|outcomes| - 1])
  }

  function CountOf(c: Counts, outcome: Outcome): nat {
    match outcome
    case Imported => c.imported
    case Skipped => c.skipped
    case Failed => c.failed
  }

  lemma OneMore(places: set<nat>, n: nat, more: bool)
    requires n !in places
    ensures |places + if more then {n} else {}| == |places| + if more then 1 else 0
  {
    assert !more ==> places + {} == places;
  }

  lemma AmongNext(before: seq<Outcome>, last: Outcome, outcome: Outcome)
    ensures Among(before + [last], outcome) == Among(before, outcome) + if last == outcome then {|before|} else {}
    ensures |before| !in Among(before, outcome)
  {
    assert forall i: nat :: i < |before| ==> (before + [last])[i] == before[i];
  }

  lemma {:induction false} CountAllCounts(outcomes: seq<Outcome>, outcome: Outcome)
    ensures CountOf(CountAll(outcomes), outcome) == |Among(outcomes, outcome)|
  {
    if outcomes == [] {
      assert Among(outcomes, outcome) == {};
    } else {
      var before, last := outcomes[..|outcomes| - 1], outcomes[|outcomes| - 1];
      CountAllCounts(before, outcome);
      AmongNext(before, last, outcome);
      OneMore(Among(before, outcome), |before|, last == outcome);
      assert before + [last] == outcomes;
    }
  }

  lemma {:induction false} AnswersTraced(config: Config, s: Session, rs: seq<Request>,
                                         next: (Session, Request) -> (Session, Outcome))
    requires forall x: Session, r: Request :: next(x, r) == Answer(config, x, r)
    ensures AnswerAll(config, s, rs) == (Trace(next, s, rs).0, CountAll(Trace(next, s, rs).1))
  {
    if rs != [] {
      AnswersTraced(config, s, rs[..|rs| - 1], next);
      var answers := Trace(next, s, rs).1;
      assert answers[..|rs| - 1] == Trace(next, s, rs[..|rs| - 1]).1;
    }
  }

  // The counts of a commit are the numbers of its answers of each kind.
  lemma CountsTell(config: Config, s: Session, rs: seq<Request>)
    ensures var c, outcomes := AnswerAll(config, s, rs).1, OutcomesOf(config, s, rs);
            && c.imported == |Among(outcomes, Imported)| && c.skipped == |Among(outcomes, Skipped)|
            && c.failed == |Among(outcomes, Failed)|
  {
    var outcomes := OutcomesOf(config, s, rs);
    OutcomesTraced(config, s, rs);
    CountAllCounts(outcomes, Imported);
    CountAllCounts(outcomes, Skipped);
    CountAllCounts(outcomes, Failed);
  }

  lemma OutcomesTraced(config: Config, s: Session, rs: seq<Request>)
    ensures AnswerAll(config, s, rs).1 == CountAll(OutcomesOf(config, s, rs))
  {
    var next := (x: Session, r: Request) => Answer(config, x, r);
    AnswersTraced(config, s, rs, next);
    forall i | 0 <= i < |rs|
      ensures Trace(next, s, rs).1[i] == Answer(config, AnswerAll(config, s, rs[..i]).0, rs[i]).1
    {
      TraceAt(next, s, rs, i);
      AnswersTraced(config, s, rs[..i], next);
    }
    assert Trace(next, s, rs).1 == OutcomesOf(config, s, rs);
  }
}
