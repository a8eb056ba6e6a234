// Finding or completing a directory with the recognition models
// (internal/models/models.go). The file system is a map from directory and name
// to files; the hash is any function of a file's content.
module ModelFiles {
  import opened Prelude
  import opened Sorting

  type Content = seq<Byte>

  // A file that cannot be read is not valid.
  datatype File = File(content: Content, readable: bool)

  type Files = map<(string, string), File>

  datatype Spec = Spec(name: string, sha: string, url: string)

  datatype ResolveError = NoCandidates | NoWritableDirectory | WriteFailed(name: string) | DownloadFailed(name: string)

  // Which file operations of one write succeed.
  datatype Io = Io(mkdir: bool, create: bool, write: bool, close: bool, remove: bool, rename: bool)

  // What is outside the program: the directories that can be written, the answers
  // of the web, and the outcome of the write of each model.
  datatype World = World(hash: Content -> string, writable: string -> bool, web: string -> Option<Content>,
                         io: string -> Io)

  predicate ValidModel(w: World, files: Files, dir: string, m: Spec) {
    (dir, m.name) in files && files[(dir, m.name)].readable && w.hash(files[(dir, m.name)].content) == m.sha
  }

  ghost predicate AllValid(w: World, files: Files, dir: string, specs: seq<Spec>) {
    forall i :: 0 <= i < |specs| ==> ValidModel(w, files, dir, specs[i])
  }

  ghost predicate DistinctNames(specs: seq<Spec>) {
    forall i, j :: 0 <= i < j < |specs| ==> specs[i].name != specs[j].name
  }

  predicate Somewhere(w: World, files: Files, candidates: seq<string>, m: Spec) {
    exists i :: 0 <= i < |candidates| && ValidModel(w, files, candidates[i], m)
  }

  // The models that no candidate directory holds, in the order of the list.
  function Missing(w: World, files: Files, candidates: seq<string>, specs: seq<Spec>): seq<string> {
    if specs == [] then []
    else
      var last := specs[|specs| - 1];
      Missing(w, files, candidates, specs[..|specs| - 1]) +
      if Somewhere(w, files, candidates, last) then [] else [last.name]
  }

  function CountValid(w: World, files: Files, dir: string, specs: seq<Spec>): nat {
    if specs == [] then 0
    else
      CountValid(w, files, dir, specs[..|specs| - 1]) + if ValidModel(w, files, dir, specs[|specs| - 1]) then 1 else 0
  }

  ghost predicate SameAt(f: Files, g: Files, key: (string, string)) {
    (key in f <==> key in g) && (key in f ==> f[key] == g[key])
  }

  // No valid model file of a candidate is lost or replaced.
  ghost predicate NothingLost(w: World, before: Files, after: Files, candidates: seq<string>, specs: seq<Spec>) {
    forall dir, i :: dir in candidates && 0 <= i < |specs| && ValidModel(w, before, dir, specs[i]) ==>
      SameAt(before, after, (dir, specs[i].name))
  }

  // Files under other names than the models' are left alone.
  ghost predicate OnlyModelsChange(before: Files, after: Files, specs: seq<Spec>) {
    forall key: (string, string) :: (forall i :: 0 <= i < |specs| ==> specs[i].name != key.1) ==>
        SameAt(before, after, key)
  }

  ghost predicate Harmless(w: World, before: Files, after: Files, candidates: seq<string>, specs: seq<Spec>) {
    NothingLost(w, before, after, candidates, specs) && OnlyModelsChange(before, after, specs)
  }

  // The directory with the most valid models among those that can be written, the
  // first of them on a tie.
  ghost predicate BestTarget(w: World, files: Files, candidates: seq<string>, specs: seq<Spec>, i: nat) {
    && i < |candidates| && w.writable(candidates[i])
    && forall j :: 0 <= j < |candidates| && w.writable(candidates[j]) ==>
         CountValid(w, files, candidates[j], specs) < CountValid(w, files, candidates[i], specs)
         || (CountValid(w, files, candidates[j], specs) == CountValid(w, files, candidates[i], specs) && i <= j)
  }

  ghost predicate IsTarget(w: World, files: Files, candidates: seq<string>, specs: seq<Spec>, target: string) {
    exists i: nat :: BestTarget(w, files, candidates, specs, i) && candidates[i] == target
  }

  lemma OneTarget(w: World, files: Files, candidates: seq<string>, specs: seq<Spec>, a: string, b: string)
    requires IsTarget(w, files, candidates, specs, a) && IsTarget(w, files, candidates, specs, b)
    ensures a == b
  {
    var i: nat :| BestTarget(w, files, candidates, specs, i) && candidates[i] == a;
    var j: nat :| BestTarget(w, files, candidates, specs, j) && candidates[j] == b;
    assert i <= j && j <= i;
  }

  ghost predicate AnyComplete(w: World, files: Files, candidates: seq<string>, specs: seq<Spec>) {
    exists i :: 0 <= i < |candidates| && AllValid(w, files, candidates[i], specs)
  }

  // All operations of a write succeed; an old file is removed only if there is one.
  predicate WriteWorks(io: Io, present: bool) {
    io.mkdir && io.create && io.write && io.close && (present ==> io.remove) && io.rename
  }

  // The model is in the target already, or it can be had, from another candidate
  // or with the right hash from the web, and its write works.
  ghost predicate CanSupply(w: World, files: Files, candidates: seq<string>, target: string, m: Spec) {
    || ValidModel(w, files, target, m)
    || (WriteWorks(w.io(m.name), (target, m.name) in files)
        && (Somewhere(w, files, candidates, m) || (w.web(m.url).Some? && w.hash(w.web(m.url).value) == m.sha)))
  }

  ghost predicate CanComplete(w: World, files: Files, candidates: seq<string>, target: string, specs: seq<Spec>) {
    forall i :: 0 <= i < |specs| ==> CanSupply(w, files, candidates, target, specs[i])
  }

  // There is a directory to complete, and it can be completed.
  ghost predicate Completable(w: World, files: Files, candidates: seq<string>, specs: seq<Spec>) {
    exists target :: IsTarget(w, files, candidates, specs, target) && CanComplete(w, files, candidates, target, specs)
  }

  lemma CompletableIff(w: World, files: Files, candidates: seq<string>, specs: seq<Spec>, target: string)
    requires IsTarget(w, files, candidates, specs, target)
    ensures Completable(w, files, candidates, specs) <==> CanComplete(w, files, candidates, target, specs)
  {
    if other :| IsTarget(w, files, candidates, specs, other) && CanComplete(w, files, candidates, other, specs) {
      OneTarget(w, files, candidates, specs, target, other);
    }
  }

  // A model that could have been copied, or one that nobody has, could not be supplied.
  function SupplyError(w: World, files: Files, candidates: seq<string>, m: Spec): ResolveError {
    if Somewhere(w, files, candidates, m) then WriteFailed(m.name) else DownloadFailed(m.name)
  }

  // Model n is the first that cannot be supplied: the run ends with its error, and
  // has asked the web for the missing models up to and including this one.
  ghost predicate FailedAt(w: World, files: Files, candidates: seq<string>, target: string, specs: seq<Spec>, n: nat,
                           error: ResolveError, before: seq<string>, after: seq<string>) {
    && n < |specs| && !CanSupply(w, files, candidates, target, specs[n])
    && (forall j :: 0 <= j < n ==> CanSupply(w, files, candidates, target, specs[j]))
    && error == SupplyError(w, files, candidates, specs[n])
    && after == before + Missing(w, files, candidates, specs[..n + 1])
  }

  // The run has chosen a directory and failed on some model.
  ghost predicate Failed(w: World, files: Files, candidates: seq<string>, specs: seq<Spec>, error: ResolveError,
                         before: seq<string>, after: seq<string>) {
    exists target, n: nat :: IsTarget(w, files, candidates, specs, target)
                             && FailedAt(w, files, candidates, target, specs, n, error, before, after)
  }

  datatype Scored = Scored(dir: string, count: nat, order: nat)

  predicate RanksBefore(a: Scored, b: Scored) {
    a.count > b.count || (a.count == b.count && a.order <= b.order)
  }

  // The first n models are in the target, and beside them nothing has changed.
  ghost predicate Progress(w: World, before: Files, files: Files, target: string, specs: seq<Spec>, n: nat)
    requires n <= |specs|
  {
    && (forall i :: 0 <= i < n ==> ValidModel(w, files, target, specs[i]))
    && UnchangedBut(w, before, files, target, specs, n)
  }

  ghost predicate Written(w: World, before: Files, target: string, specs: seq<Spec>, n: nat, key: (string, string))
    requires n <= |specs|
  {
    key.0 == target && exists i :: 0 <= i < n && specs[i].name == key.1 && !ValidModel(w, before, target, specs[i])
  }

  ghost predicate UnchangedBut(w: World, before: Files, files: Files, target: string, specs: seq<Spec>, n: nat)
    requires n <= |specs|
  {
    forall key :: !Written(w, before, target, specs, n, key) ==> SameAt(before, files, key)
  }

  lemma UnchangedLosesNothing(w: World, before: Files, files: Files, target: string, specs: seq<Spec>, n: nat,
                              candidates: seq<string>)
    requires n <= |specs| && DistinctNames(specs) && UnchangedBut(w, before, files, target, specs, n)
    ensures Harmless(w, before, files, candidates, specs)
  {
    forall dir, i | dir in candidates && 0 <= i < |specs| && ValidModel(w, before, dir, specs[i])
      ensures SameAt(before, files, (dir, specs[i].name))
    {
      NotWritten(w, before, target, specs, n, dir, i);
    }
  }

  lemma NameTellsIndex(specs: seq<Spec>, i: nat, j: nat)
    requires DistinctNames(specs) && i < |specs| && j < |specs| && specs[i].name == specs[j].name
    ensures i == j
  {
  }

  lemma NotWritten(w: World, before: Files, target: string, specs: seq<Spec>, n: nat, dir: string, i: nat)
    requires n <= |specs| && DistinctNames(specs) && i < |specs|
    requires ValidModel(w, before, dir, specs[i]) || n <= i
    ensures !Written(w, before, target, specs, n, (dir, specs[i].name))
  {
    if dir == target {
      forall j | 0 <= j < n && specs[j].name == specs[i].name
        ensures ValidModel(w, before, target, specs[j])
      {
        NameTellsIndex(specs, i, j);
      }
    }
  }

  // A model not yet reached is where it was.
  lemma StillThere(w: World, before: Files, files: Files, target: string, specs: seq<Spec>, n: nat, dir: string)
    requires n < |specs| && DistinctNames(specs) && UnchangedBut(w, before, files, target, specs, n)
    ensures SameAt(before, files, (dir, specs[n].name))
    ensures ValidModel(w, files, dir, specs[n]) <==> ValidModel(w, before, dir, specs[n])
  {
    NotWritten(w, before, target, specs, n, dir, n);
  }

  lemma ProgressStep(w: World, before: Files, files: Files, after: Files, target: string, specs: seq<Spec>, n: nat)
    requires n < |specs| && DistinctNames(specs) && Progress(w, before, files, target, specs, n)
    requires forall key :: key != (target, specs[n].name) ==> SameAt(files, after, key)
    requires ValidModel(w, before, target, specs[n]) ==> after == files
    ensures UnchangedBut(w, before, after, target, specs, n + 1)
    ensures ValidModel(w, after, target, specs[n]) ==> Progress(w, before, after, target, specs, n + 1)
  {
    var written := (target, specs[n].name);
    forall key | !Written(w, before, target, specs, n + 1, key)
      ensures SameAt(before, after, key)
    {
      assert !Written(w, before, target, specs, n, key);
      if key == written {
        assert specs[n].name == key.1;
      } else {
        assert SameAt(files, after, key);
      }
    }
    forall i | 0 <= i < n
      ensures ValidModel(w, after, target, specs[i])
    {
      assert specs[i].name != specs[n].name;
      assert SameAt(files, after, (target, specs[i].name));
    }
  }

  class ModelStore {
    const world: World
    var files: Files
    var downloads: seq<string>

    constructor (world: World, files: Files)
      ensures this.world == world && this.files == files && downloads == []
    {
      this.world, this.files, downloads := world, files, [];
    }

    method DirectoryComplete(dir: string, specs: seq<Spec>) returns (complete: bool)
      ensures complete <==> AllValid(world, files, dir, specs)
    {
      for i := 0 to |specs|
        invariant forall j :: 0 <= j < i ==> ValidModel(world, files, dir, specs[j])
      {
        if !ValidModel(world, files, dir, specs[i]) {
          return false;
        }
      }
      return true;
    }

    method ChooseTarget(candidates: seq<string>, specs: seq<Spec>) returns (target: Option<string>)
      ensures target.None? ==> forall j :: 0 <= j < |candidates| ==> !world.writable(candidates[j])
      ensures target.Some? ==> IsTarget(world, files, candidates, specs, target.value)
    {
      var ranked: seq<Scored> := [];
      for i := 0 to |candidates|
        invariant |ranked| == i
        invariant forall j :: 0 <= j < i ==>
                    ranked[j] == Scored(candidates[j], CountValid(world, files, candidates[j], specs), j)
      {
        var count := 0;
        for k := 0 to |specs|
          invariant count == CountValid(world, files, candidates[i], specs[..k])
        {
          assert specs[..k + 1][..k] == specs[..k];
          if ValidModel(world, files, candidates[i], specs[k]) {
            count := count + 1;
          }
        }
        assert specs[..|specs|] == specs;
        ranked := ranked + [Scored(candidates[i], count, i)];
      }
      var sorted := SortBy(ranked, RanksBefore);
      SameElements(sorted, ranked);
      for i := 0 to |sorted|
        invariant forall j :: 0 <= j < i ==> !world.writable(sorted[j].dir)
      {
        if world.writable(sorted[i].dir) {
          FirstWritableIsBest(world, files, candidates, specs, ranked, sorted, i);
          return Some(sorted[i].dir);
        }
      }
      forall j | 0 <= j < |candidates|
        ensures !world.writable(candidates[j])
      {
        assert ranked[j] in sorted;
      }
      return None;
    }

    // A temporary file is written and checked, and only then put in the place of
    // the target.
    method WriteVerified(key: (string, string), sha: string, data: Content, io: Io) returns (ok: bool)
      modifies this`files
      ensures ok <==> world.hash(data) == sha && WriteWorks(io, key in old(files))
      ensures ok ==> files == old(files)[key := File(data, true)]
      ensures !ok ==> files == if world.hash(data) == sha && WriteWorks(io.(rename := true), key in old(files))
                               then old(files) - {key} else old(files)
    {
      if !io.mkdir || !io.create || !io.write || !io.close {
        return false;
      }
      if world.hash(data) != sha {
        return false;
      }
      if key in files {
        if !io.remove {
          return false;
        }
        files := files - {key};
      }
      if !io.rename {
        return false;
      }
      files := files[key := File(data, true)];
      return true;
    }

    // The loop looking for a copy of the model.
    method FindCopy(candidates: seq<string>, target: string, m: Spec) returns (found: Option<string>)
      requires !ValidModel(world, files, target, m)
      ensures found.None? <==> !Somewhere(world, files, candidates, m)
      ensures found.Some? ==> ValidModel(world, files, found.value, m)
    {
      for i := 0 to |candidates|
        invariant forall j :: 0 <= j < i ==> !ValidModel(world, files, candidates[j], m)
      {
        if candidates[i] == target || !ValidModel(world, files, candidates[i], m) {
          continue;
        }
        return Some(candidates[i]);
      }
      return None;
    }

    // One model: kept, copied from another candidate, or downloaded.
    method Supply(candidates: seq<string>, target: string, m: Spec) returns (error: Option<ResolveError>)
      modifies this
      ensures error.None? <==> CanSupply(world, old(files), candidates, target, m)
      ensures error.None? ==> ValidModel(world, files, target, m)
      ensures error.Some? ==> error.value == SupplyError(world, old(files), candidates, m)
      ensures forall key :: key != (target, m.name) ==> SameAt(old(files), files, key)
      ensures ValidModel(world, old(files), target, m) ==> files == old(files) && error.None?
      ensures downloads == if ValidModel(world, old(files), target, m) || Somewhere(world, old(files), candidates, m)
                           then old(downloads) else old(downloads) + [m.name]
    {
      if ValidModel(world, files, target, m) {
        return None;
      }
      var source := FindCopy(candidates, target, m);
      if source.Some? {
        var ok := WriteVerified((target, m.name), m.sha, files[(source.value, m.name)].content, world.io(m.name));
        return if ok then None else Some(WriteFailed(m.name));
      }
      downloads := downloads + [m.name];
      var data := world.web(m.url);
      if data.None? {
        return Some(DownloadFailed(m.name));
      }
      var ok := WriteVerified((target, m.name), m.sha, data.value, world.io(m.name));
      return if ok then None else Some(DownloadFailed(m.name));
    }

    method FirstComplete(candidates: seq<string>, specs: seq<Spec>) returns (found: Option<nat>)
      ensures found.Some? ==> found.value < |candidates| && AllValid(world, files, candidates[found.value], specs)
      ensures found.None? ==> !AnyComplete(world, files, candidates, specs)
    {
      for i := 0 to |candidates|
        invariant forall j :: 0 <= j < i ==> !AllValid(world, files, candidates[j], specs)
      {
        var complete := DirectoryComplete(candidates[i], specs);
        if complete {
          return Some(i);
        }
      }
      return None;
    }

    method Resolve(candidates: seq<string>, specs: seq<Spec>) returns (result: Result<string, ResolveError>)
      requires DistinctNames(specs)
      modifies this
      ensures Harmless(world, old(files), files, candidates, specs)
      ensures result.Ok? <==> AnyComplete(world, old(files), candidates, specs)
                              || Completable(world, old(files), candidates, specs)
      ensures result.Ok? ==> result.value in candidates && AllValid(world, files, result.value, specs)
                             && downloads == old(downloads) + Missing(world, old(files), candidates, specs)
      ensures AnyComplete(world, old(files), candidates, specs) ==>
                files == old(files) && downloads == old(downloads)
      ensures !AnyComplete(world, old(files), candidates, specs) && result.Ok? ==>
                IsTarget(world, old(files), candidates, specs, result.value)
      ensures result == Err(NoCandidates) <==> |candidates| == 0
      ensures result.Err? && |candidates| > 0 ==>
                if result.error == NoWritableDirectory then NoneWritable(candidates)
                else Failed(world, old(files), candidates, specs, result.error, old(downloads), downloads)
      ensures result == Err(NoCandidates) || result == Err(NoWritableDirectory) ==>
                files == old(files) && downloads == old(downloads)
    {
      if |candidates| == 0 {
        return Err(NoCandidates);
      }
      var complete := FirstComplete(candidates, specs);
      if complete.Some? {
        NothingMissing(world, files, candidates, specs, complete.value);
        assert downloads == downloads + [];
        return Ok(candidates[complete.value]);
      }
      result := CompleteBest(candidates, specs);
    }

    predicate NoneWritable(candidates: seq<string>) {
      forall i :: 0 <= i < |candidates| ==> !world.writable(candidates[i])
    }

    // When no directory is complete, the best one is to be completed.
    method CompleteBest(candidates: seq<string>, specs: seq<Spec>) returns (result: Result<string, ResolveError>)
      requires DistinctNames(specs)
      modifies this
      ensures Harmless(world, old(files), files, candidates, specs)
      ensures result.Ok? <==> Completable(world, old(files), candidates, specs)
      ensures result.Ok? ==> IsTarget(world, old(files), candidates, specs, result.value)
                             && AllValid(world, files, result.value, specs)
                             && downloads == old(downloads) + Missing(world, old(files), candidates, specs)
      ensures result.Err? ==> result.error != NoCandidates
      ensures result.Err? ==>
                if result.error == NoWritableDirectory
                then NoneWritable(candidates) && files == old(files) && downloads == old(downloads)
                else Failed(world, old(files), candidates, specs, result.error, old(downloads), downloads)
    {
      var target := ChooseTarget(candidates, specs);
      if target.None? {
        return Err(NoWritableDirectory);
      }
      ghost var failed;
      CompletableIff(world, files, candidates, specs, target.value);
      result, failed := Complete(candidates, target.value, specs);
    }

    // The loop over the models.
    method Complete(candidates: seq<string>, target: string, specs: seq<Spec>)
      returns (result: Result<string, ResolveError>, ghost failed: nat)
      requires DistinctNames(specs) && target in candidates
      modifies this
      ensures Harmless(world, old(files), files, candidates, specs)
      ensures result.Ok? <==> CanComplete(world, old(files), candidates, target, specs)
      ensures result.Ok? ==> result.value == target && AllValid(world, files, target, specs)
                             && downloads == old(downloads) + Missing(world, old(files), candidates, specs)
      ensures result.Err? ==> FailedAt(world, old(files), candidates, target, specs, failed, result.error,
                                       old(downloads), downloads)
    {
      for i := 0 to |specs|
        invariant Progress(world, old(files), files, target, specs, i)
        invariant forall j :: 0 <= j < i ==> CanSupply(world, old(files), candidates, target, specs[j])
        invariant downloads == old(downloads) + Missing(world, old(files), candidates, specs[..i])
      {
        var error := SupplyNext(candidates, target, specs, i, old(files), old(downloads));
        if error.Some? {
          return Err(error.value), i;
        }
      }
      assert specs[..|specs|] == specs;
      UnchangedLosesNothing(world, old(files), files, target, specs, |specs|, candidates);
      return Ok(target), 0;
    }

    // The body of the loop, after the first i models.
    method SupplyNext(candidates: seq<string>, target: string, specs: seq<Spec>, i: nat, ghost before: Files,
                      ghost asked: seq<string>)
      returns (error: Option<ResolveError>)
      requires DistinctNames(specs) && target in candidates && i < |specs|
      requires Progress(world, before, files, target, specs, i)
      requires downloads == asked + Missing(world, before, candidates, specs[..i])
      modifies this
      ensures downloads == asked + Missing(world, before, candidates, specs[..i + 1])
      ensures error.None? ==> Progress(world, before, files, target, specs, i + 1)
      ensures error.None? <==> CanSupply(world, before, candidates, target, specs[i])
      ensures error.Some? ==> Harmless(world, before, files, candidates, specs)
                              && error.value == SupplyError(world, before, candidates, specs[i])
    {
      MissingStep(world, before, files, target, candidates, specs, i);
      error := Supply(candidates, target, specs[i]);
      ProgressStep(world, before, old(files), files, target, specs, i);
      ghost var missing := Missing(world, before, candidates, specs[..i]);
      assert asked + (missing + []) == asked + missing;
      assert asked + (missing + [specs[i].name]) == (asked + missing) + [specs[i].name];
      if error.Some? {
        UnchangedLosesNothing(world, before, files, target, specs, i + 1, candidates);
      }
    }
  }

  // With a complete directory nothing is missing.
  lemma {:induction false} NothingMissing(w: World, files: Files, candidates: seq<string>, specs: seq<Spec>, i: nat)
    requires i < |candidates| && AllValid(w, files, candidates[i], specs)
    ensures Missing(w, files, candidates, specs) == []
  {
    if specs != [] {
      NothingMissing(w, files, candidates, specs[..|specs| - 1], i);
      assert ValidModel(w, files, candidates[i], specs[|specs| - 1]);
    }
  }

  // Whether the next model is missing can be told from the files as they are now.
  lemma MissingStep(w: World, before: Files, files: Files, target: string, candidates: seq<string>, specs: seq<Spec>,
                    n: nat)
    requires n < |specs| && DistinctNames(specs) && target in candidates
    requires UnchangedBut(w, before, files, target, specs, n)
    ensures Missing(w, before, candidates, specs[..n + 1]) ==
              Missing(w, before, candidates, specs[..n]) +
              if ValidModel(w, files, target, specs[n]) || Somewhere(w, files, candidates, specs[n]) then []
              else [specs[n].name]
    ensures CanSupply(w, files, candidates, target, specs[n]) <==> CanSupply(w, before, candidates, target, specs[n])
    ensures ValidModel(w, files, target, specs[n]) <==> ValidModel(w, before, target, specs[n])
    ensures Somewhere(w, files, candidates, specs[n]) <==> Somewhere(w, before, candidates, specs[n])
  {
    assert specs[..n + 1][..n] == specs[..n];
    forall i | 0 <= i < |candidates|
      ensures ValidModel(w, files, candidates[i], specs[n]) <==> ValidModel(w, before, candidates[i], specs[n])
    {
      StillThere(w, before, files, target, specs, n, candidates[i]);
    }
    StillThere(w, before, files, target, specs, n, target);
    var i :| 0 <= i < |candidates| && candidates[i] == target;
  }

  lemma FirstWritableIsBest(w: World, files: Files, candidates: seq<string>, specs: seq<Spec>, ranked: seq<Scored>,
                            sorted: seq<Scored>, i: nat)
    requires |ranked| == |candidates| && SortedPermutation(sorted, ranked, RanksBefore) && i < |sorted|
    requires forall j :: 0 <= j < |ranked| ==>
               ranked[j] == Scored(candidates[j], CountValid(w, files, candidates[j], specs), j)
    requires w.writable(sorted[i].dir) && forall j :: 0 <= j < i ==> !w.writable(sorted[j].dir)
    ensures IsTarget(w, files, candidates, specs, sorted[i].dir)
  {
    SameElements(sorted, ranked);
    assert sorted[i] in ranked;
    var k :| 0 <= k < |ranked| && ranked[k] == sorted[i];
    forall j | 0 <= j < |candidates| && w.writable(candidates[j])
      ensures RanksBefore(ranked[k], ranked[j])
    {
      assert ranked[j] in sorted;
      var x :| 0 <= x < |sorted| && sorted[x] == ranked[j];
      assert i < x ==> RanksBefore(sorted[i], sorted[x]);
    }
    assert BestTarget(w, files, candidates, specs, k);
  }
}