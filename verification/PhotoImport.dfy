// Importing an archive of photos (internal/web/photo_import.go): sorting the
// photos into ready ones, known faces and duplicates, and committing the selected
// items, in any number of requests.
module PhotoImport {
  import opened Prelude
  import opened School
  import opened FaceCodec
  import opened FaceCache

  const MAX_ITEMS := 500

  // An entry of the archive: a directory or one of the archiver's own entries, a
  // file that is no photo, a photo that cannot be used, or one with the feature of
  // its face.
  datatype Photo = NoFile | Ignored | Unusable(fileName: string) | Usable(fileName: string, feature: Feature)

  predicate IsPhoto(photo: Photo) {
    photo.Unusable? || photo.Usable?
  }

  datatype Status = Rejected | Existing | Review | Ready | PackageDuplicate

  datatype Item = Item(id: nat, fileName: string, feature: Feature, status: Status, existing: Option<nat>,
                       similarity: real, duplicateFile: string, committed: bool)

  datatype AnalyzeError = TooManyItems | NothingUsable

  // ---- Analysis ----

  function ReviewThreshold(config: Config): real {
    if config.threshold - 0.04 > 0.55 then config.threshold - 0.04 else 0.55
  }

  function ReadyItems(items: seq<Item>): seq<Item> {
    if items == [] then []
    else ReadyItems(items[..|items| - 1]) + if items[|items| - 1].status.Ready? then [items[|items| - 1]] else []
  }

  // The first of the earlier ready photos that shows the same face.
  function FirstMatch(config: Config, ready: seq<Item>, feature: Feature): Option<Item> {
    if ready == [] then None
    else
      var earlier := FirstMatch(config, ready[..|ready| - 1], feature);
      var last := ready[|ready| - 1];
      if earlier.Some? then earlier
      else if config.similarity(feature, last.feature) >= config.threshold then Some(last)
      else None
  }

  function Classify(config: Config, known: seq<Decoded>, items: seq<Item>, photo: Photo): Item
    requires IsPhoto(photo)
  {
    var id := |items| + 1;
    if photo.Unusable? then Item(id, photo.fileName, [], Rejected, None, 0.0, "", false)
    else
      var best := Compare(config, known, photo.feature, 0);
      var item := Item(id, photo.fileName, photo.feature, Ready, None, best.otherScore, "", false);
      if best.other.Some? && best.otherScore >= config.threshold then item.(status := Existing, existing := best.other)
      else if best.other.Some? && best.otherScore >= ReviewThreshold(config)
        then item.(status := Review, existing := best.other)
      else
        match FirstMatch(config, ReadyItems(items), photo.feature)
        case None => item
        case Some(previous) =>
          item.(status := PackageDuplicate, similarity := config.similarity(photo.feature, previous.feature),
                duplicateFile := previous.fileName)
  }

  function ItemsOf(config: Config, known: seq<Decoded>, photos: seq<Photo>): seq<Item> {
    if photos == [] then []
    else
      var before, photo := ItemsOf(config, known, photos[..|photos| - 1]), photos[|photos| - 1];
      if IsPhoto(photo) then before + [Classify(config, known, before, photo)] else before
  }

  // Ready photos show different people, pairwise.
  ghost predicate ReadyApart(config: Config, items: seq<Item>) {
    forall i, j :: 0 <= i < j < |items| && items[i].status.Ready? && items[j].status.Ready? ==>
      config.similarity(items[j].feature, items[i].feature) < config.threshold
  }

  predicate HasOriginal(config: Config, items: seq<Item>, n: nat, item: Item)
    requires n <= |items|
  {
    exists i :: 0 <= i < n && items[i].status.Ready? && items[i].fileName == item.duplicateFile
                && config.similarity(item.feature, items[i].feature) >= config.threshold
  }

  // A duplicate names an earlier ready photo of the same face.
  ghost predicate DuplicatesFounded(config: Config, items: seq<Item>) {
    forall j :: 0 <= j < |items| && items[j].status.PackageDuplicate? ==> HasOriginal(config, items, j, items[j])
  }

  predicate Known(config: Config, known: seq<Decoded>, feature: Feature) {
    exists k :: 0 <= k < |known| && config.similarity(feature, known[k].feature) >= config.threshold
  }

  // The photos of faces that match a known one are marked as such, and no other.
  ghost predicate KnownRecognized(config: Config, known: seq<Decoded>, items: seq<Item>) {
    forall j :: 0 <= j < |items| && !items[j].status.Rejected? ==>
      (items[j].status.Existing? <==> Known(config, known, items[j].feature))
  }

  ghost predicate FreshItems(items: seq<Item>) {
    forall i :: 0 <= i < |items| ==> items[i].id == i + 1 && !items[i].committed
  }

  lemma {:induction false} ReadyAmong(items: seq<Item>)
    ensures forall x :: x in ReadyItems(items) <==> x in items && x.status.Ready?
  {
    if items != [] {
      ReadyAmong(items[..|items| - 1]);
      assert items == items[..|items| - 1] + [items[|items| - 1]];
    }
  }

  lemma {:induction false} FirstMatchMeans(config: Config, ready: seq<Item>, feature: Feature)
    ensures var m := FirstMatch(config, ready, feature);
            && (m.None? ==> forall x :: x in ready ==> config.similarity(feature, x.feature) < config.threshold)
            && (m.Some? ==> m.value in ready && config.similarity(feature, m.value.feature) >= config.threshold)
  {
    if ready != [] {
      FirstMatchMeans(config, ready[..|ready| - 1], feature);
      assert ready == ready[..|ready| - 1] + [ready[|ready| - 1]];
    }
  }

  lemma {:induction false} AnalysisSorts(config: Config, known: seq<Decoded>, photos: seq<Photo>)
    requires config.threshold > 0.0
    ensures var items := ItemsOf(config, known, photos);
            && ReadyApart(config, items) && DuplicatesFounded(config, items) && KnownRecognized(config, known, items)
            && FreshItems(items)
  {
    if photos != [] {
      var before, photo := photos[..|photos| - 1], photos[|photos| - 1];
      AnalysisSorts(config, known, before);
      if IsPhoto(photo) {
        OneMoreItem(config, known, ItemsOf(config, known, before), photo);
      }
    }
  }

  lemma OneMoreItem(config: Config, known: seq<Decoded>, items: seq<Item>, photo: Photo)
    requires config.threshold > 0.0 && IsPhoto(photo)
    requires ReadyApart(config, items) && DuplicatesFounded(config, items) && KnownRecognized(config, known, items)
             && FreshItems(items)
    ensures var more := items + [Classify(config, known, items, photo)];
            && ReadyApart(config, more) && DuplicatesFounded(config, more) && KnownRecognized(config, known, more)
            && FreshItems(more)
  {
    var item := Classify(config, known, items, photo);
    ClassifyMeans(config, known, items, photo);
    ReadyStep(config, items, item);
    DuplicatesStep(config, items, item);
  }

  // What the status of one more photo says.
  lemma ClassifyMeans(config: Config, known: seq<Decoded>, items: seq<Item>, photo: Photo)
    requires config.threshold > 0.0 && IsPhoto(photo)
    ensures var item := Classify(config, known, items, photo);
            && item.id == |items| + 1 && !item.committed
            && (item.status.Ready? ==>
                  forall x :: x in ReadyItems(items) ==> config.similarity(item.feature, x.feature) < config.threshold)
            && (item.status.PackageDuplicate? ==> HasOriginal(config, items, |items|, item))
            && (!item.status.Rejected? ==> (item.status.Existing? <==> Known(config, known, item.feature)))
  {
    if photo.Usable? {
      DuplicateMeans(config, known, photo.feature, 0);
      FirstMatchMeans(config, ReadyItems(items), photo.feature);
      ReadyAmong(items);
      if Classify(config, known, items, photo).status.PackageDuplicate? {
        var previous := FirstMatch(config, ReadyItems(items), photo.feature).value;
        var i :| 0 <= i < |items| && items[i] == previous;
      }
    }
  }

  lemma ReadyStep(config: Config, items: seq<Item>, item: Item)
    requires ReadyApart(config, items)
    requires item.status.Ready? ==>
               forall x :: x in ReadyItems(items) ==> config.similarity(item.feature, x.feature) < config.threshold
    ensures ReadyApart(config, items + [item])
  {
    ReadyAmong(items);
    forall i | 0 <= i < |items| && items[i].status.Ready? && item.status.Ready?
      ensures config.similarity(item.feature, items[i].feature) < config.threshold
    {
      assert items[i] in ReadyItems(items);
    }
  }

  lemma DuplicatesStep(config: Config, items: seq<Item>, item: Item)
    requires DuplicatesFounded(config, items)
    requires item.status.PackageDuplicate? ==> HasOriginal(config, items, |items|, item)
    ensures DuplicatesFounded(config, items + [item])
  {
    var more := items + [item];
    forall j | 0 <= j < |more| && more[j].status.PackageDuplicate?
      ensures HasOriginal(config, more, j, more[j])
    {
      assert HasOriginal(config, items, j, more[j]);
      var i :| 0 <= i < j && items[i].status.Ready? && items[i].fileName == more[j].duplicateFile
               && config.similarity(more[j].feature, items[i].feature) >= config.threshold;
      assert more[i] == items[i];
    }
  }

  // Before each file among the first n entries, the session still has room.
  ghost predicate WithinLimit(config: Config, known: seq<Decoded>, photos: seq<Photo>, n: nat)
    requires n <= |photos|
  {
    forall i :: 0 <= i < n && !photos[i].NoFile? ==> |ItemsOf(config, known, photos[..i])| < 500
  }

  lemma ItemsNext(config: Config, known: seq<Decoded>, photos: seq<Photo>, i: nat)
    requires i < |photos|
    ensures var before := ItemsOf(config, known, photos[..i]);
            ItemsOf(config, known, photos[..i + 1]) ==
              if IsPhoto(photos[i]) then before + [Classify(config, known, before, photos[i])] else before
  {
    assert photos[..i + 1][..i] == photos[..i];
  }

  lemma ReadyNext(items: seq<Item>, item: Item)
    ensures ReadyItems(items + [item]) == ReadyItems(items) + if item.status.Ready? then [item] else []
  {
    assert (items + [item])[..|items|] == items;
  }

  method Analyze(config: Config, known: seq<Decoded>, photos: seq<Photo>) returns (result: Result<seq<Item>,
                 AnalyzeError>)
    ensures result.Ok? ==> result.value == ItemsOf(config, known, photos) && 0 < |result.value|
    ensures result == Err(TooManyItems) <==> !WithinLimit(config, known, photos, |photos|)
    ensures result == Err(NothingUsable) ==> ItemsOf(config, known, photos) == []
  {
    var items: seq<Item>, packageFeatures: seq<Item> := [], [];
    for i := 0 to |photos|
      invariant items == ItemsOf(config, known, photos[..i]) && packageFeatures == ReadyItems(items)
      invariant WithinLimit(config, known, photos, i)
    {
      ItemsNext(config, known, photos, i);
      if photos[i].NoFile? {
        continue;
      }
      if |items| >= MAX_ITEMS {
        return Err(TooManyItems);
      }
      if photos[i].Ignored? {
        continue;
      }
      items, packageFeatures := AddPhoto(config, known, items, packageFeatures, photos[i]);
    }
    assert photos[..|photos|] == photos;
    if |items| == 0 {
      return Err(NothingUsable);
    }
    return Ok(items);
  }

  // The photo as one more item, and as one of the ready ones if it is ready.
  method AddPhoto(config: Config, known: seq<Decoded>, items: seq<Item>, packageFeatures: seq<Item>, photo: Photo)
    returns (more: seq<Item>, moreFeatures: seq<Item>)
    requires IsPhoto(photo) && packageFeatures == ReadyItems(items)
    ensures more == items + [Classify(config, known, items, photo)] && moreFeatures == ReadyItems(more)
  {
    var item := ClassifyPhoto(config, known, items, packageFeatures, photo);
    ReadyNext(items, item);
    more, moreFeatures := items + [item], packageFeatures;
    if item.status.Ready? {
      moreFeatures := moreFeatures + [item];
    }
  }

  // The body of the loop over the archive.
  method ClassifyPhoto(config: Config, known: seq<Decoded>, items: seq<Item>, packageFeatures: seq<Item>, photo: Photo)
    returns (item: Item)
    requires IsPhoto(photo) && packageFeatures == ReadyItems(items)
    ensures item == Classify(config, known, items, photo)
    ensures item.status == Rejected <==> photo.Unusable?
    ensures item.id == |items| + 1 && item.fileName == photo.fileName && !item.committed
  {
    var id := |items| + 1;
    if photo.Unusable? {
      return Item(id, photo.fileName, [], Rejected, None, 0.0, "", false);
    }
    var best := BestKnown(config, known, photo.feature);
    item := Item(id, photo.fileName, photo.feature, Ready, None, best.otherScore, "", false);
    if best.other.Some? && best.otherScore >= config.threshold {
      return item.(status := Existing, existing := best.other);
    }
    if best.other.Some? && best.otherScore >= ReviewThreshold(config) {
      return item.(status := Review, existing := best.other);
    }
    for i := 0 to |packageFeatures|
      invariant FirstMatch(config, packageFeatures[..i], photo.feature).None?
    {
      var score := config.similarity(photo.feature, packageFeatures[i].feature);
      assert packageFeatures[..i + 1][..i] == packageFeatures[..i];
      if score >= config.threshold {
        MatchStays(config, packageFeatures, photo.feature, i + 1);
        return item.(status := PackageDuplicate, similarity := score, duplicateFile := packageFeatures[i].fileName);
      }
    }
    assert packageFeatures[..|packageFeatures|] == packageFeatures;
  }

  lemma {:induction false} MatchStays(config: Config, ready: seq<Item>, feature: Feature, n: nat)
    requires n <= |ready| && FirstMatch(config, ready[..n], feature).Some?
    ensures FirstMatch(config, ready, feature) == FirstMatch(config, ready[..n], feature)
    decreases |ready| - n
  {
    if n < |ready| {
      assert ready[..n + 1][..n] == ready[..n];
      MatchStays(config, ready, feature, n + 1);
    } else {
      assert ready[..n] == ready;
    }
  }

  method BestKnown(config: Config, known: seq<Decoded>, feature: Feature) returns (best: Comparison)
    ensures best == Compare(config, known, feature, 0)
  {
    best := Comparison(false, 0.0, None, 0.0);
    for i := 0 to |known|
      invariant best == Compare(config, known[..i], feature, 0)
    {
      assert known[..i + 1][..i] == known[..i];
      var score := config.similarity(feature, known[i].feature);
      if score > best.otherScore {
        best := best.(other := Some(known[i].studentId), otherScore := score);
      }
    }
    assert known[..|known|] == known;
  }

  // ---- Commit ----

  datatype Action = Skip | New | Supplement | Unknown

  // A requested item, with what the database answers: to the check of the class,
  // to the read of the samples, to the writes, and the ids it gives new rows.
  datatype Request = Request(id: int, action: Action, no: string, name: string, className: string,
                             checkOk: bool, readOk: bool, writeOk: bool, studentId: nat, sampleId: nat, createdAt: int)

  datatype Outcome = Imported | Skipped | Failed

  // What one item had stored: a student with a sample, or a sample of a student.
  datatype Stored =
    | Created(item: nat, student: nat, sample: nat, at: int)
    | Added(item: nat, student: nat, sample: nat, at: int)

  datatype Session = Session(server: State, items: seq<Item>, stored: seq<Stored>)

  // The effect of one request on the database, and whether its item is done with.
  datatype Handled = Handled(server: State, outcome: Outcome, committed: bool, student: Option<nat>)

  function FindItem(items: seq<Item>, id: int): (i: nat)
    ensures i <= |items| && (i < |items| ==> items[i].id == id)
    ensures forall j :: 0 <= j < i ==> items[j].id != id
  {
    if items == [] || items[0].id == id then 0 else 1 + FindItem(items[1..], id)
  }

  ghost function HandleNew(config: Config, s: State, item: Item, r: Request): Handled {
    if !item.status.Ready? || r.no == "" || r.name == "" then Handled(s, Failed, false, None)
    else
      var t := Loaded(s, r.readOk);
      if !t.loaded || Duplicate(config, Compare(config, t.cache, item.feature, 0)) then Handled(t, Failed, false, None)
      else if !r.writeOk || CreateStudentError(t.db.students, r.studentId, r.no, r.name).Some? || item.feature == []
      then Handled(t, Failed, false, None)
      else
        var db := t.db.(students := AfterCreateStudent(t.db.students, r.studentId, r.no, r.name, r.className),
                        samples := t.db.samples[r.sampleId := Sample(r.studentId, Encode(item.feature), r.createdAt)]);
        Handled(t.(db := db), Imported, true, Some(r.studentId))
  }

  ghost function HandleSupplement(config: Config, s: State, item: Item, r: Request): Handled {
    if item.existing.None? || item.existing.value == 0 then Handled(s, Failed, false, None)
    else
      var target, t := item.existing.value, Loaded(s, r.readOk);
      var c := Compare(config, t.cache, item.feature, target);
      if !t.loaded || (Duplicate(config, c) && (!c.sameFound || c.otherScore > c.sameScore))
      then Handled(t, Failed, false, None)
      else if !c.sameFound || c.sameScore < config.threshold then Handled(t, Failed, false, None)
      else if c.sameScore >= 0.995 then Handled(t, Skipped, true, None)
      else if ChangeClassError(t.db.students, target, r.className).Some? then Handled(t, Failed, false, None)
      else
        var moved := t.(db := t.db.(students := AfterChangeClass(t.db.students, target, r.className)));
        if !r.writeOk || item.feature == [] then Handled(moved, Failed, false, None)
        else
          var samples := t.db.samples[r.sampleId := Sample(target, Encode(item.feature), r.createdAt)];
          Handled(moved.(db := moved.db.(samples := samples)), Imported, true, Some(target))
  }

  ghost function Handle(config: Config, s: State, item: Item, r: Request): Handled {
    if r.action.Skip? || item.committed then Handled(s, Skipped, false, None)
    else if item.status.Rejected? || item.status.Review? || item.status.PackageDuplicate?
      then Handled(s, Failed, false, None)
    else if !r.checkOk || !ClassNamed(s.db.classes, r.className) then Handled(s, Failed, false, None)
    else
      match r.action
      case New => HandleNew(config, s, item, r)
      case Supplement => HandleSupplement(config, s, item, r)
      case _ => Handled(s, Failed, false, None)
  }

  function Mark(items: seq<Item>, i: nat, committed: bool): seq<Item>
    requires i < |items|
  {
    if committed then items[i := items[i].(committed := true)] else items
  }

  function StoredBy(r: Request, i: nat, h: Handled): seq<Stored> {
    if h.student.None? then []
    else if r.action.New? then [Created(i, h.student.value, r.sampleId, r.createdAt)]
    else [Added(i, h.student.value, r.sampleId, r.createdAt)]
  }

  ghost function Answer(config: Config, s: Session, r: Request): (Session, Outcome) {
    var i := FindItem(s.items, r.id);
    if i == |s.items| then (s, Failed)
    else
      var h := Handle(config, s.server, s.items[i], r);
      (Session(h.server, Mark(s.items, i, h.committed), s.stored + StoredBy(r, i, h)), h.outcome)
  }

  datatype Counts = Counts(imported: nat, skipped: nat, failed: nat)

  function Count(c: Counts, outcome: Outcome): Counts {
    match outcome
    case Imported => c.(imported := c.imported + 1)
    case Skipped => c.(skipped := c.skipped + 1)
    case Failed => c.(failed := c.failed + 1)
  }

  ghost function AnswerAll(config: Config, s: Session, rs: seq<Request>): (Session, Counts) {
    if rs == [] then (s, Counts(0, 0, 0))
    else
      var (t, c) := AnswerAll(config, s, rs[..|rs| - 1]);
      var (u, outcome) := Answer(config, t, rs[|rs| - 1]);
      (u, Count(c, outcome))
  }

  // A whole commit: the answers, and a refresh of the cache if anything was imported.
  ghost function AfterCommit(config: Config, s: Session, rs: seq<Request>, reloadOk: bool): (Session, Counts) {
    var (t, c) := AnswerAll(config, s, rs);
    (if c.imported > 0 then t.(server := Refreshed(t.server.db, reloadOk)) else t, c)
  }

  // A commit as single steps, and the other handlers that run in between.
  datatype Step = Requested(r: Request) | Refreshing(reloadOk: bool) | Other(e: Event)

  ghost function AfterStep(config: Config, s: Session, step: Step): Session {
    match step
    case Requested(r) => Answer(config, s, r).0
    case Refreshing(reloadOk) => s.(server := Refreshed(s.server.db, reloadOk))
    case Other(e) => s.(server := After(s.server, config, e))
  }

  ghost function RunSteps(config: Config, s: Session, steps: seq<Step>): Session {
    if steps == [] then s
    else AfterStep(config, RunSteps(config, s, steps[..|steps| - 1]), steps[|steps| - 1])
  }

  function AllRequested(rs: seq<Request>): seq<Step> {
    seq(|rs|, i requires 0 <= i < |rs| => Requested(rs[i]))
  }

  lemma {:induction false} AnswersAreSteps(config: Config, s: Session, rs: seq<Request>)
    ensures AnswerAll(config, s, rs).0 == RunSteps(config, s, AllRequested(rs))
  {
    if rs != [] {
      AnswersAreSteps(config, s, rs[..|rs| - 1]);
      assert AllRequested(rs)[..|rs| - 1] == AllRequested(rs[..|rs| - 1]);
    }
  }

  // A commit is its requests, answered in turn, and then a refresh if anything was
  // imported.
  lemma CommitIsSteps(config: Config, s: Session, rs: seq<Request>, reloadOk: bool)
    ensures var (t, c) := AfterCommit(config, s, rs, reloadOk);
            t == RunSteps(config, s, AllRequested(rs) + if c.imported > 0 then [Refreshing(reloadOk)] else [])
  {
    AnswersAreSteps(config, s, rs);
    var steps := AllRequested(rs);
    assert (steps + [Refreshing(reloadOk)])[..|steps|] == steps && steps + [] == steps;
  }

  // Each item has stored one thing at most, and is committed since; students are
  // created from ready photos only.
  ghost predicate StoredOnce(s: Session) {
    && (forall i, j :: 0 <= i < j < |s.stored| ==> s.stored[i].item != s.stored[j].item)
    && (forall i :: 0 <= i < |s.stored| ==>
          var n := s.stored[i].item;
          n < |s.items| && s.items[n].committed && (s.stored[i].Created? ==> s.items[n].status.Ready?))
  }

  // Items keep everything but their mark.
  ghost predicate SameItems(a: seq<Item>, b: seq<Item>) {
    |a| == |b| && forall i :: 0 <= i < |a| ==> b[i].(committed := a[i].committed) == a[i]
  }

  lemma AnswerKeepsStoredOnce(config: Config, s: Session, r: Request)
    requires StoredOnce(s)
    ensures StoredOnce(Answer(config, s, r).0) && SameItems(s.items, Answer(config, s, r).0.items)
  {
    var i := FindItem(s.items, r.id);
    if i < |s.items| {
      HandlesOnce(config, s.server, s.items[i], r);
    }
  }

  lemma HandlesOnce(config: Config, s: State, item: Item, r: Request)
    ensures var h := Handle(config, s, item, r);
            && (h.committed ==> !item.committed)
            && (h.student.Some? ==> h.committed && (r.action.New? ==> item.status.Ready?))
            && (h.outcome.Imported? <==> h.student.Some?)
  {
  }

  lemma {:induction false} AnswersKeepStoredOnce(config: Config, s: Session, rs: seq<Request>)
    requires StoredOnce(s)
    ensures var (t, c) := AnswerAll(config, s, rs);
            && StoredOnce(t) && SameItems(s.items, t.items)
            && c.imported + c.skipped + c.failed == |rs|
            && |t.stored| == |s.stored| + c.imported
  {
    if rs != [] {
      AnswersKeepStoredOnce(config, s, rs[..|rs| - 1]);
      var t := AnswerAll(config, s, rs[..|rs| - 1]).0;
      AnswerKeepsStoredOnce(config, t, rs[|rs| - 1]);
      var i := FindItem(t.items, rs[|rs| - 1].id);
      if i < |t.items| {
        HandlesOnce(config, t.server, t.items[i], rs[|rs| - 1]);
      }
    }
  }

  lemma {:induction false} StepsKeepStoredOnce(config: Config, s: Session, steps: seq<Step>)
    requires StoredOnce(s)
    ensures StoredOnce(RunSteps(config, s, steps)) && SameItems(s.items, RunSteps(config, s, steps).items)
  {
    if steps != [] {
      var n := |steps| - 1;
      StepsKeepStoredOnce(config, s, steps[..n]);
      if steps[n].Requested? {
        AnswerKeepsStoredOnce(config, RunSteps(config, s, steps[..n]), steps[n].r);
      }
    }
  }

  // Over all commits of an analysed archive, and whatever other handlers do in
  // between, every item stores one student or one sample at most, and the students
  // created show different faces, pairwise.
  lemma CreatedApart(config: Config, known: seq<Decoded>, photos: seq<Photo>, server: State,
                     steps: seq<Step>, a: nat, b: nat)
    requires config.threshold > 0.0
    requires var t := RunSteps(config, Session(server, ItemsOf(config, known, photos), []), steps);
             a < |t.stored| && b < |t.stored| && a != b
    ensures var items := ItemsOf(config, known, photos);
            var t := RunSteps(config, Session(server, items, []), steps);
            var m, n := t.stored[a].item, t.stored[b].item;
            && m < |items| && n < |items| && m != n
            && (t.stored[a].Created? && t.stored[b].Created? && m < n ==>
                  config.similarity(items[n].feature, items[m].feature) < config.threshold)
  {
    var items := ItemsOf(config, known, photos);
    var s := Session(server, items, []);
    AnalysisSorts(config, known, photos);
    StepsKeepStoredOnce(config, s, steps);
    var t := RunSteps(config, s, steps);
    var m, n := t.stored[a].item, t.stored[b].item;
    assert t.items[m].(committed := items[m].committed) == items[m];
    assert t.items[n].(committed := items[n].committed) == items[n];
  }

  // ---- What has been stored is in the tables ----

  datatype RowId = StudentRow(id: nat) | SampleRow(id: nat)

  function RowsOf(db: Db): set<RowId> {
    (set k | k in db.students :: StudentRow(k)) + (set k | k in db.samples :: SampleRow(k))
  }

  function RowsBy(x: Stored): set<RowId> {
    if x.Created? then {StudentRow(x.student), SampleRow(x.sample)} else {SampleRow(x.sample)}
  }

  function StoredRows(stored: seq<Stored>): set<RowId> {
    if stored == [] then {} else StoredRows(stored[..|stored| - 1]) + RowsBy(stored[|stored| - 1])
  }

  // All rows there have been, those that other handlers brought, and those that
  // they took away.
  datatype Ledger = Ledger(ever: set<RowId>, brought: set<RowId>, gone: set<RowId>)

  ghost function LedgerOf(config: Config, s: Session, steps: seq<Step>): Ledger {
    if steps == [] then Ledger(RowsOf(s.server.db), {}, {})
    else
      var ledger := LedgerOf(config, s, steps[..|steps| - 1]);
      var before := RowsOf(RunSteps(config, s, steps[..|steps| - 1]).server.db);
      NextLedger(ledger, before, RowsOf(RunSteps(config, s, steps).server.db), steps[|steps| - 1].Other?)
  }

  function NextLedger(ledger: Ledger, before: set<RowId>, after: set<RowId>, other: bool): Ledger {
    if other then Ledger(ledger.ever + after, ledger.brought + (after - before), ledger.gone + (before - after))
    else ledger.(ever := ledger.ever + after)
  }

  // The database gives every new row an id that no row has ever had.
  ghost predicate NewIds(config: Config, s: Session, step: Step, ever: set<RowId>) {
    match step
    case Requested(r) => StudentRow(r.studentId) !in ever && SampleRow(r.sampleId) !in ever
    case Other(_) => RowsOf(AfterStep(config, s, step).server.db) * ever <= RowsOf(s.server.db)
    case Refreshing(_) => true
  }

  ghost predicate AllIdsNew(config: Config, s: Session, steps: seq<Step>) {
    forall i :: 0 <= i < |steps| ==>
      NewIds(config, RunSteps(config, s, steps[..i]), steps[i], LedgerOf(config, s, steps[..i]).ever)
  }

  // The sample of a stored item holds the face of the item.
  ghost predicate HoldsFace(db: Db, items: seq<Item>, x: Stored) {
    x.item < |items| &&
    (x.sample in db.samples ==>
       db.samples[x.sample] == Sample(x.student, Encode(items[x.item].feature), x.at))
  }

  ghost predicate DistinctSamples(stored: seq<Stored>) {
    forall i, j :: 0 <= i < j < |stored| ==> stored[i].sample != stored[j].sample
  }

  // The tables hold the rows there were, those brought by other handlers and those
  // stored by items, each of them new, except what other handlers took away.
  ghost predicate TablesMatch(start: set<RowId>, t: Session, ledger: Ledger) {
    && ledger.ever == start + ledger.brought + StoredRows(t.stored)
    && RowsOf(t.server.db) == ledger.ever - ledger.gone
    && StoredRows(t.stored) !! start + ledger.brought
    && DistinctSamples(t.stored)
    && forall x :: x in t.stored ==> HoldsFace(t.server.db, t.items, x)
  }

  lemma StoredRowsNext(stored: seq<Stored>, x: Stored)
    ensures StoredRows(stored + [x]) == StoredRows(stored) + RowsBy(x)
  {
    assert (stored + [x])[..|stored|] == stored;
  }

  lemma {:induction false} StoredSamples(stored: seq<Stored>)
    ensures forall x :: x in stored ==> SampleRow(x.sample) in StoredRows(stored)
  {
    if stored != [] {
      StoredSamples(stored[..|stored| - 1]);
      assert stored == stored[..|stored| - 1] + [stored[|stored| - 1]];
    }
  }

  // What one answer writes: nothing, or exactly the rows of one more stored thing.
  ghost predicate Wrote(before: Db, after: Db, item: Item, more: seq<Stored>) {
    if more == [] then RowsOf(after) == RowsOf(before) && after.samples == before.samples
    else
      && |more| == 1 && RowsOf(after) == RowsOf(before) + RowsBy(more[0])
      && after.samples == before.samples[more[0].sample := Sample(more[0].student, Encode(item.feature), more[0].at)]
      && (more[0].Created? <==> more[0].student !in before.students)
  }

  lemma SameRows(a: Db, b: Db)
    requires a.students.Keys == b.students.Keys && a.samples.Keys == b.samples.Keys
    ensures RowsOf(a) == RowsOf(b)
  {
  }

  lemma NewWrites(config: Config, s: State, item: Item, r: Request, i: nat)
    requires r.action.New? && StudentRow(r.studentId) !in RowsOf(s.db)
    ensures var h := HandleNew(config, s, item, r); Wrote(s.db, h.server.db, item, StoredBy(r, i, h))
  {
    assert r.studentId !in s.db.students;
    var h := HandleNew(config, s, item, r);
    if h.student.Some? {
      RowsAdded(s.db, h.server.db, {r.studentId}, r.sampleId);
    }
  }

  lemma RowsAdded(before: Db, after: Db, students: set<nat>, sample: nat)
    requires after.students.Keys == before.students.Keys + students
    requires after.samples.Keys == before.samples.Keys + {sample}
    ensures RowsOf(after) == RowsOf(before) + (set k | k in students :: StudentRow(k)) + {SampleRow(sample)}
  {
  }

  lemma SupplementWrites(config: Config, s: State, item: Item, r: Request, i: nat)
    requires r.action.Supplement?
    ensures var h := HandleSupplement(config, s, item, r); Wrote(s.db, h.server.db, item, StoredBy(r, i, h))
  {
    var h := HandleSupplement(config, s, item, r);
    SupplementKeepsStudents(config, s, item, r);
    if h.student.None? {
      SameRows(h.server.db, s.db);
    } else {
      RowsAdded(s.db, h.server.db, {}, r.sampleId);
    }
  }

  lemma SupplementKeepsStudents(config: Config, s: State, item: Item, r: Request)
    ensures var h := HandleSupplement(config, s, item, r);
            && h.server.db.students.Keys == s.db.students.Keys
            && (h.student.None? ==> h.server.db.samples == s.db.samples)
            && (h.student.Some? ==>
                  && h.student.value in s.db.students
                  && h.server.db.samples ==
                     s.db.samples[r.sampleId := Sample(h.student.value, Encode(item.feature), r.createdAt)])
  {
  }

  lemma HandleWrites(config: Config, s: State, item: Item, r: Request, i: nat)
    requires StudentRow(r.studentId) !in RowsOf(s.db)
    ensures var h := Handle(config, s, item, r); Wrote(s.db, h.server.db, item, StoredBy(r, i, h))
  {
    match r.action
    case New => NewWrites(config, s, item, r, i);
    case Supplement => SupplementWrites(config, s, item, r, i);
    case _ =>
  }

  lemma AnswerMatches(start: set<RowId>, config: Config, s: Session, r: Request, ledger: Ledger)
    requires TablesMatch(start, s, ledger) && NewIds(config, s, Requested(r), ledger.ever)
    requires ledger.gone <= ledger.ever
    ensures var t := Answer(config, s, r).0;
            TablesMatch(start, t, NextLedger(ledger, RowsOf(s.server.db), RowsOf(t.server.db), false))
  {
    var i := FindItem(s.items, r.id);
    if i < |s.items| && Handle(config, s.server, s.items[i], r).student.Some? {
      AnswerStores(config, s, r);
      var x := StoredBy(r, i, Handle(config, s.server, s.items[i], r))[0];
      OneMoreStored(start, s, Answer(config, s, r).0, x, ledger);
    } else {
      if i < |s.items| {
        HandleWrites(config, s.server, s.items[i], r, i);
      }
      NothingStored(start, s, Answer(config, s, r).0, ledger);
    }
  }

  lemma AnswerStores(config: Config, s: Session, r: Request)
    requires FindItem(s.items, r.id) < |s.items| && StudentRow(r.studentId) !in RowsOf(s.server.db)
    requires Handle(config, s.server, s.items[FindItem(s.items, r.id)], r).student.Some?
    ensures var i, t := FindItem(s.items, r.id), Answer(config, s, r).0;
            var x := StoredBy(r, i, Handle(config, s.server, s.items[i], r))[0];
            && t.stored == s.stored + [x] && SameItems(s.items, t.items) && x.item == i
            && Wrote(s.server.db, t.server.db, s.items[i], [x])
            && RowsBy(x) <= {StudentRow(r.studentId), SampleRow(r.sampleId)}
  {
    var i := FindItem(s.items, r.id);
    HandleWrites(config, s.server, s.items[i], r, i);
    NewStudentOnly(config, s.server, s.items[i], r);
  }

  // The student of a new row is the one the database numbered.
  lemma NewStudentOnly(config: Config, s: State, item: Item, r: Request)
    ensures var h := Handle(config, s, item, r);
            h.student.Some? && r.action.New? ==> h.student.value == r.studentId
  {
  }

  lemma NothingStored(start: set<RowId>, s: Session, t: Session, ledger: Ledger)
    requires TablesMatch(start, s, ledger) && t.stored == s.stored && SameItems(s.items, t.items)
    requires RowsOf(t.server.db) == RowsOf(s.server.db) && t.server.db.samples == s.server.db.samples
    ensures TablesMatch(start, t, NextLedger(ledger, RowsOf(s.server.db), RowsOf(t.server.db), false))
  {
    assert ledger.ever + RowsOf(t.server.db) == ledger.ever;
    forall x | x in t.stored
      ensures HoldsFace(t.server.db, t.items, x)
    {
      assert HoldsFace(s.server.db, s.items, x);
      assert t.items[x.item].(committed := s.items[x.item].committed) == s.items[x.item];
    }
  }

  lemma OneMoreStored(start: set<RowId>, s: Session, t: Session, x: Stored, ledger: Ledger)
    requires TablesMatch(start, s, ledger) && ledger.gone <= ledger.ever
    requires t.stored == s.stored + [x] && SameItems(s.items, t.items) && x.item < |s.items|
    requires Wrote(s.server.db, t.server.db, s.items[x.item], [x])
    requires RowsBy(x) !! ledger.ever
    ensures TablesMatch(start, t, NextLedger(ledger, RowsOf(s.server.db), RowsOf(t.server.db), false))
  {
    StoredRowsNext(s.stored, x);
    StoredSamples(s.stored);
    assert SampleRow(x.sample) in RowsBy(x);
    var ledger' := NextLedger(ledger, RowsOf(s.server.db), RowsOf(t.server.db), false);
    assert ledger'.ever == ledger.ever + RowsBy(x);
    forall y | y in t.stored
      ensures HoldsFace(t.server.db, t.items, y)
    {
      if y in s.stored {
        assert HoldsFace(s.server.db, s.items, y) && y.sample != x.sample;
        assert t.items[y.item].(committed := s.items[y.item].committed) == s.items[y.item];
      } else {
        assert t.items[x.item].(committed := s.items[x.item].committed) == s.items[x.item];
      }
    }
  }

  // A handler leaves the rows of samples as they are, or takes them away.
  lemma HandlerKeepsSamples(config: Config, s: State, e: Event)
    ensures var db := After(s, config, e).db;
            forall k :: k in s.db.samples && k in db.samples ==> db.samples[k] == s.db.samples[k]
  {
  }

  lemma OtherMatches(start: set<RowId>, config: Config, s: Session, e: Event, ledger: Ledger)
    requires TablesMatch(start, s, ledger) && NewIds(config, s, Other(e), ledger.ever) && ledger.gone <= ledger.ever
    ensures var t := AfterStep(config, s, Other(e));
            TablesMatch(start, t, NextLedger(ledger, RowsOf(s.server.db), RowsOf(t.server.db), true))
  {
    var t := AfterStep(config, s, Other(e));
    HandlerKeepsSamples(config, s.server, e);
    StoredSamples(s.stored);
    forall x | x in t.stored
      ensures HoldsFace(t.server.db, t.items, x)
    {
      assert HoldsFace(s.server.db, s.items, x);
      if x.sample in t.server.db.samples {
        assert SampleRow(x.sample) in RowsOf(t.server.db) && SampleRow(x.sample) in ledger.ever;
        assert SampleRow(x.sample) in RowsOf(s.server.db);
      }
    }
    RowsMove(ledger, RowsOf(s.server.db), RowsOf(t.server.db));
  }

  lemma RowsMove(ledger: Ledger, before: set<RowId>, after: set<RowId>)
    requires before == ledger.ever - ledger.gone && ledger.gone <= ledger.ever && after * ledger.ever <= before
    ensures var next := NextLedger(ledger, before, after, true);
            && after == next.ever - next.gone && next.gone <= next.ever
            && next.ever == ledger.ever + (after - before) && (after - before) !! ledger.ever
  {
  }

  // Over all commits of an archive and whatever other handlers do in between: the
  // tables hold what was there, what others brought and what the items stored, less
  // what others took away, and the sample of an item holds the item's face.
  lemma {:induction false} TablesMatchStored(config: Config, s: Session, steps: seq<Step>)
    requires s.stored == [] && AllIdsNew(config, s, steps)
    ensures var ledger := LedgerOf(config, s, steps);
            && TablesMatch(RowsOf(s.server.db), RunSteps(config, s, steps), ledger) && ledger.gone <= ledger.ever
  {
    if steps == [] {
      assert StoredRows([]) == {};
    } else {
      var before, step := steps[..|steps| - 1], steps[|steps| - 1];
      forall i | 0 <= i < |before|
        ensures NewIds(config, RunSteps(config, s, before[..i]), before[i], LedgerOf(config, s, before[..i]).ever)
      {
        assert before[..i] == steps[..i];
      }
      TablesMatchStored(config, s, before);
      StepMatches(RowsOf(s.server.db), config, RunSteps(config, s, before), step, LedgerOf(config, s, before));
    }
  }

  lemma StepMatches(start: set<RowId>, config: Config, s: Session, step: Step, ledger: Ledger)
    requires TablesMatch(start, s, ledger) && ledger.gone <= ledger.ever && NewIds(config, s, step, ledger.ever)
    ensures var t := AfterStep(config, s, step);
            var next := NextLedger(ledger, RowsOf(s.server.db), RowsOf(t.server.db), step.Other?);
            TablesMatch(start, t, next) && next.gone <= next.ever
  {
    match step
    case Requested(r) => AnswerMatches(start, config, s, r, ledger);
    case Refreshing(_) => NothingStored(start, s, AfterStep(config, s, step), ledger);
    case Other(e) =>
      OtherMatches(start, config, s, e, ledger);
      RowsMove(ledger, RowsOf(s.server.db), RowsOf(AfterStep(config, s, step).server.db));
  }

  class PhotoImportSession {
    const server: FaceServer
    var items: seq<Item>
    ghost var stored: seq<Stored>

    ghost function Now(): Session
      reads this, server
    {
      Session(server.Now(), items, stored)
    }

    constructor (server: FaceServer, items: seq<Item>)
      ensures this.server == server && Now() == Session(server.Now(), items, [])
    {
      this.server, this.items, stored := server, items, [];
    }

    method Find(id: int) returns (i: nat)
      ensures i == FindItem(items, id)
    {
      i := 0;
      while i < |items|
        invariant i <= |items| && FindItem(items, id) == i + FindItem(items[i..], id)
      {
        assert items[i..][1..] == items[i + 1..];
        if items[i].id == id {
          return;
        }
        i := i + 1;
      }
    }

    method Commit(requests: seq<Request>, reloadOk: bool) returns (counts: Counts)
      modifies this, server
      ensures (Now(), counts) == AfterCommit(server.config, old(Now()), requests, reloadOk)
    {
      counts := Counts(0, 0, 0);
      for i := 0 to |requests|
        invariant (Now(), counts) == AnswerAll(server.config, old(Now()), requests[..i])
      {
        assert requests[..i + 1][..i] == requests[..i];
        var outcome := AnswerRequest(requests[i]);
        match outcome {
          case Imported => counts := counts.(imported := counts.imported + 1);
          case Skipped => counts := counts.(skipped := counts.skipped + 1);
          case Failed => counts := counts.(failed := counts.failed + 1);
        }
      }
      assert requests[..|requests|] == requests;
      if counts.imported > 0 {
        server.RefreshAfterMutation(reloadOk);
      }
    }

    // The body of the loop over the requests.
    method AnswerRequest(r: Request) returns (outcome: Outcome)
      modifies this, server
      ensures (Now(), outcome) == Answer(server.config, old(Now()), r)
    {
      var i := Find(r.id);
      if i == |items| {
        return Failed;
      }
      var committed, student;
      outcome, committed, student := HandleRequest(items[i], r);
      if committed {
        items := items[i := items[i].(committed := true)];
      }
      stored := stored + StoredBy(r, i, Handled(server.Now(), outcome, committed, student));
    }

    method HandleRequest(item: Item, r: Request) returns (outcome: Outcome, committed: bool, student: Option<nat>)
      modifies server
      ensures Handled(server.Now(), outcome, committed, student) == Handle(server.config, old(server.Now()), item, r)
    {
      if r.action.Skip? {
        return Skipped, false, None;
      }
      if item.committed {
        return Skipped, false, None;
      }
      if item.status.Rejected? || item.status.Review? || item.status.PackageDuplicate? {
        return Failed, false, None;
      }
      if !r.checkOk || !ClassNamed(server.db.classes, r.className) {
        return Failed, false, None;
      }
      match r.action {
        case New => outcome, committed, student := CreateFromPhoto(item, r);
        case Supplement => outcome, committed, student := SupplementFromPhoto(item, r);
        case _ => outcome, committed, student := Failed, false, None;
      }
    }

    method CreateFromPhoto(item: Item, r: Request) returns (outcome: Outcome, committed: bool, student: Option<nat>)
      modifies server
      ensures Handled(server.Now(), outcome, committed, student) == HandleNew(server.config, old(server.Now()), item, r)
    {
      if !item.status.Ready? || r.no == "" || r.name == "" {
        return Failed, false, None;
      }
      var comparison := server.CompareFeature(item.feature, 0, r.readOk);
      if comparison.None? || Duplicate(server.config, comparison.value) {
        return Failed, false, None;
      }
      var db := server.db;
      if !r.writeOk || CreateStudentError(db.students, r.studentId, r.no, r.name).Some? || item.feature == [] {
        return Failed, false, None;
      }
      server.db := db.(students := db.students[r.studentId := Student(r.no, r.name, r.className, 0)],
                       samples := db.samples[r.sampleId := Sample(r.studentId, Encode(item.feature), r.createdAt)]);
      return Imported, true, Some(r.studentId);
    }

    method SupplementFromPhoto(item: Item, r: Request) returns (outcome: Outcome, committed: bool, student: Option<nat>)
      modifies server
      ensures Handled(server.Now(), outcome, committed, student) ==
              HandleSupplement(server.config, old(server.Now()), item, r)
    {
      if item.existing.None? || item.existing.value == 0 {
        return Failed, false, None;
      }
      var target := item.existing.value;
      var comparison := server.CompareFeature(item.feature, target, r.readOk);
      if comparison.None? {
        return Failed, false, None;
      }
      var c := comparison.value;
      if c.other.Some? && c.otherScore >= server.config.threshold && (!c.sameFound || c.otherScore > c.sameScore) {
        return Failed, false, None;
      }
      if !c.sameFound || c.sameScore < server.config.threshold {
        return Failed, false, None;
      }
      if c.sameScore >= 0.995 {
        return Skipped, true, None;
      }
      var db := server.db;
      if ChangeClassError(db.students, target, r.className).Some? {
        return Failed, false, None;
      }
      server.db := db.(students := AfterChangeClass(db.students, target, r.className));
      if !r.writeOk || item.feature == [] {
        return Failed, false, None;
      }
      server.db := server.db.(samples := db.samples[r.sampleId := Sample(target, Encode(item.feature), r.createdAt)]);
      return Imported, true, Some(target);
    }
  }
}
