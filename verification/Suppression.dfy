// Non-maximum suppression (internal/person/engine.go) and the same loop in
// mergePersonDetections (internal/web/recognition_person_scheduler.go).
module Suppression {
  import opened Geometry
  import opened Sorting

  const MERGE_THRESHOLD: real := 0.45
  const MAX_PERSONS: int := 24

  datatype Detection = Detection(rectangle: Rect, score: real)

  predicate ByScore(a: Detection, b: Detection) {
    a.score >= b.score
  }

  predicate Overlaps(a: Detection, b: Detection, threshold: real) {
    IoU(a.rectangle, b.rectangle) > threshold
  }

  // The loop over candidates in descending order of score; maxResults <= 0
  // means no limit.
  function Keep(sorted: seq<Detection>, kept: seq<Detection>, threshold: real, maxResults: int): seq<Detection> {
    if sorted == [] then kept
    else if exists k :: k in kept && Overlaps(sorted[0], k, threshold)
      then Keep(sorted[1..], kept, threshold, maxResults)
    else if 0 < maxResults <= |kept| + 1 then kept + [sorted[0]]
    else Keep(sorted[1..], kept + [sorted[0]], threshold, maxResults)
  }

  ghost predicate PairwiseApart(xs: seq<Detection>, threshold: real) {
    forall i, j :: 0 <= i < j < |xs| ==> IoU(xs[j].rectangle, xs[i].rectangle) <= threshold
  }

  ghost predicate Full(kept: seq<Detection>, maxResults: int) {
    0 < maxResults == |kept|
  }

  // A candidate is kept, overlaps a kept one of at least its score, or comes
  // after the last one there was room for.
  ghost predicate Accounted(c: Detection, kept: seq<Detection>, threshold: real, maxResults: int) {
    || c in kept
    || (exists k :: k in kept && Overlaps(c, k, threshold) && k.score >= c.score)
    || (Full(kept, maxResults) && kept[|kept| - 1].score >= c.score)
  }

  lemma {:induction false} KeepExtends(sorted: seq<Detection>, kept: seq<Detection>, threshold: real, maxResults: int)
    requires PairwiseApart(kept, threshold) && (maxResults > 0 ==> |kept| < maxResults)
    ensures var r := Keep(sorted, kept, threshold, maxResults);
            && kept <= r && PairwiseApart(r, threshold)
            && (forall k :: k in r ==> k in kept || k in sorted)
            && (maxResults > 0 ==> |r| <= maxResults)
  {
    if sorted != [] {
      if exists k :: k in kept && Overlaps(sorted[0], k, threshold) {
        KeepExtends(sorted[1..], kept, threshold, maxResults);
      } else {
        var kept' := kept + [sorted[0]];
        forall i | 0 <= i < |kept|
          ensures IoU(sorted[0].rectangle, kept[i].rectangle) <= threshold
        {
          assert !Overlaps(sorted[0], kept[i], threshold);
        }
        if !(0 < maxResults <= |kept| + 1) {
          KeepExtends(sorted[1..], kept', threshold, maxResults);
        }
      }
    }
  }

  lemma {:induction false} KeepAccounts(sorted: seq<Detection>, kept: seq<Detection>, threshold: real,
                                        maxResults: int, c: Detection)
    requires Sorted(sorted, ByScore) && c in sorted
    requires PairwiseApart(kept, threshold) && (maxResults > 0 ==> |kept| < maxResults)
    requires forall k, x :: k in kept && x in sorted ==> k.score >= x.score
    ensures Accounted(c, Keep(sorted, kept, threshold, maxResults), threshold, maxResults)
  {
    var h := sorted[0];
    KeepExtends(sorted, kept, threshold, maxResults);
    HeadIsBest(sorted);
    if k :| k in kept && Overlaps(h, k, threshold) {
      assert k in Keep(sorted, kept, threshold, maxResults);
      if c != h {
        KeepAccounts(sorted[1..], kept, threshold, maxResults, c);
      }
    } else {
      KeptHead(sorted, kept, threshold, maxResults);
      if !(0 < maxResults <= |kept| + 1) && c != h {
        KeepAccounts(sorted[1..], kept + [h], threshold, maxResults, c);
      }
    }
  }

  lemma HeadIsBest(sorted: seq<Detection>)
    requires Sorted(sorted, ByScore) && sorted != []
    ensures forall x :: x in sorted ==> sorted[0].score >= x.score
  {
    forall x | x in sorted
      ensures sorted[0].score >= x.score
    {
      var i :| 0 <= i < |sorted| && sorted[i] == x;
      assert i > 0 ==> ByScore(sorted[0], sorted[i]);
    }
  }

  // A head that overlaps nothing kept is kept itself, and may be the last.
  lemma KeptHead(sorted: seq<Detection>, kept: seq<Detection>, threshold: real, maxResults: int)
    requires sorted != [] && PairwiseApart(kept, threshold) && (maxResults > 0 ==> |kept| < maxResults)
    requires forall k :: k in kept ==> !Overlaps(sorted[0], k, threshold)
    ensures var r, kept' := Keep(sorted, kept, threshold, maxResults), kept + [sorted[0]];
            && PairwiseApart(kept', threshold) && sorted[0] in r
            && (if 0 < maxResults <= |kept| + 1 then r == kept' && r[|r| - 1] == sorted[0]
                else r == Keep(sorted[1..], kept', threshold, maxResults))
  {
    var kept' := kept + [sorted[0]];
    assert kept'[|kept|] == sorted[0];
    forall i | 0 <= i < |kept|
      ensures IoU(sorted[0].rectangle, kept[i].rectangle) <= threshold
    {
      assert !Overlaps(sorted[0], kept[i], threshold);
    }
    if !(0 < maxResults <= |kept| + 1) {
      KeepExtends(sorted[1..], kept', threshold, maxResults);
    }
  }

  ghost predicate Descends(xs: seq<Detection>) {
    forall i, j :: 0 <= i < j < |xs| ==> xs[i].score >= xs[j].score
  }

  // The boxes kept are in the order of their scores ...
  lemma {:induction false} KeepDescends(sorted: seq<Detection>, kept: seq<Detection>, threshold: real, maxResults: int)
    requires Sorted(sorted, ByScore) && Descends(kept)
    requires forall k, x :: k in kept && x in sorted ==> k.score >= x.score
    ensures Descends(Keep(sorted, kept, threshold, maxResults))
  {
    if sorted != [] {
      HeadIsBest(sorted);
      forall i | 0 <= i < |kept|
        ensures kept[i].score >= sorted[0].score
      {
        assert kept[i] in kept;
      }
      if exists k :: k in kept && Overlaps(sorted[0], k, threshold) {
        KeepDescends(sorted[1..], kept, threshold, maxResults);
      } else if !(0 < maxResults <= |kept| + 1) {
        KeepDescends(sorted[1..], kept + [sorted[0]], threshold, maxResults);
      }
    }
  }

  // ... and each is kept no more often than it came.
  lemma {:induction false} KeepWithin(sorted: seq<Detection>, kept: seq<Detection>, threshold: real, maxResults: int)
    ensures multiset(Keep(sorted, kept, threshold, maxResults)) <= multiset(kept) + multiset(sorted)
  {
    if sorted != [] {
      var kept' := kept + [sorted[0]];
      assert sorted == [sorted[0]] + sorted[1..];
      assert multiset(kept') + multiset(sorted[1..]) == multiset(kept) + multiset(sorted);
      if exists k :: k in kept && Overlaps(sorted[0], k, threshold) {
        KeepWithin(sorted[1..], kept, threshold, maxResults);
      } else if !(0 < maxResults <= |kept| + 1) {
        KeepWithin(sorted[1..], kept', threshold, maxResults);
      }
    }
  }

  // What suppression guarantees, whatever the order of equal scores.
  ghost predicate Suppressed(out: seq<Detection>, candidates: seq<Detection>, threshold: real, maxResults: int) {
    && PairwiseApart(out, threshold) && Descends(out)
    && (maxResults > 0 ==> |out| <= maxResults)
    && multiset(out) <= multiset(candidates) && (forall k :: k in out ==> k in candidates)
    && (forall c :: c in candidates ==> Accounted(c, out, threshold, maxResults))
  }

  lemma KeepSuppresses(sorted: seq<Detection>, candidates: seq<Detection>, threshold: real, maxResults: int)
    requires SortedPermutation(sorted, candidates, ByScore)
    ensures Suppressed(Keep(sorted, [], threshold, maxResults), candidates, threshold, maxResults)
  {
    SameElements(sorted, candidates);
    KeepExtends(sorted, [], threshold, maxResults);
    KeepDescends(sorted, [], threshold, maxResults);
    KeepWithin(sorted, [], threshold, maxResults);
    forall c | c in candidates
      ensures Accounted(c, Keep(sorted, [], threshold, maxResults), threshold, maxResults)
    {
      KeepAccounts(sorted, [], threshold, maxResults, c);
    }
  }

  // ---- Idempotence ----

  ghost predicate PairsApart(m: multiset<Detection>, threshold: real) {
    forall a, b :: multiset{a, b} <= m ==> IoU(a.rectangle, b.rectangle) <= threshold
  }

  lemma PairInMultiset(xs: seq<Detection>, i: nat, j: nat)
    requires i < j < |xs|
    ensures multiset{xs[i], xs[j]} <= multiset(xs)
  {
    var a, b, c := xs[..i + 1], xs[i + 1..j + 1], xs[j + 1..];
    assert xs == a + b + c;
    assert a[i] == xs[i] && b[j - i - 1] == xs[j];
    assert xs[i] in multiset(a) && xs[j] in multiset(b);
    assert multiset(xs) == multiset(a) + multiset(b) + multiset(c);
  }

  lemma PairAtIndices(xs: seq<Detection>, a: Detection, b: Detection)
    requires multiset{a, b} <= multiset(xs)
    ensures exists i, j :: 0 <= i < |xs| && 0 <= j < |xs| && i != j && xs[i] == a && xs[j] == b
  {
    assert a in multiset(xs);
    var i :| 0 <= i < |xs| && xs[i] == a;
    var rest := xs[..i] + xs[i + 1..];
    assert xs == xs[..i] + [xs[i]] + xs[i + 1..];
    assert multiset(xs) == multiset(rest) + multiset{a};
    assert b in multiset(rest) && b in rest;
    var k :| 0 <= k < |rest| && rest[k] == b;
    var j := if k < i then k else k + 1;
    assert xs[j] == b;
  }

  lemma ApartAsMultiset(xs: seq<Detection>, threshold: real)
    ensures PairwiseApart(xs, threshold) <==> PairsApart(multiset(xs), threshold)
  {
    if PairwiseApart(xs, threshold) {
      forall a, b | multiset{a, b} <= multiset(xs)
        ensures IoU(a.rectangle, b.rectangle) <= threshold
      {
        PairAtIndices(xs, a, b);
        IoUBounds(a.rectangle, b.rectangle);
      }
    }
    if PairsApart(multiset(xs), threshold) {
      forall i, j | 0 <= i < j < |xs|
        ensures IoU(xs[j].rectangle, xs[i].rectangle) <= threshold
      {
        PairInMultiset(xs, i, j);
        IoUBounds(xs[i].rectangle, xs[j].rectangle);
      }
    }
  }

  lemma {:induction false} KeepAll(xs: seq<Detection>, kept: seq<Detection>, threshold: real, maxResults: int)
    requires PairwiseApart(kept + xs, threshold)
    requires maxResults > 0 ==> |kept| + |xs| <= maxResults
    ensures Keep(xs, kept, threshold, maxResults) == kept + xs
  {
    if xs != [] {
      forall k | k in kept
        ensures !Overlaps(xs[0], k, threshold)
      {
        var i :| 0 <= i < |kept| && kept[i] == k;
        assert (kept + xs)[i] == k && (kept + xs)[|kept|] == xs[0];
      }
      assert (kept + [xs[0]]) + xs[1..] == kept + xs;
      if !(0 < maxResults <= |kept| + 1) {
        KeepAll(xs[1..], kept + [xs[0]], threshold, maxResults);
      }
    }
  }

  // Suppressing the output again, in any order of equal scores, keeps it all.
  lemma Idempotent(out: seq<Detection>, candidates: seq<Detection>, again: seq<Detection>, threshold: real,
                   maxResults: int)
    requires Suppressed(out, candidates, threshold, maxResults)
    requires SortedPermutation(again, out, ByScore)
    ensures multiset(Keep(again, [], threshold, maxResults)) == multiset(out)
  {
    SameElements(again, out);
    ApartAsMultiset(out, threshold);
    ApartAsMultiset(again, threshold);
    assert [] + again == again;
    KeepAll(again, [], threshold, maxResults);
  }

  // ---- The two loops ----

  method NonMaximumSuppression(candidates: seq<Detection>, threshold: real, maxResults: int)
    returns (out: seq<Detection>, ghost sorted: seq<Detection>)
    ensures SortedPermutation(sorted, candidates, ByScore) && out == Keep(sorted, [], threshold, maxResults)
    ensures Suppressed(out, candidates, threshold, maxResults)
  {
    var order := SortBy(candidates, ByScore);
    sorted := order;
    KeepSuppresses(order, candidates, threshold, maxResults);
    out := [];
    for i := 0 to |order|
      invariant Keep(order, [], threshold, maxResults) == Keep(order[i..], out, threshold, maxResults)
    {
      assert order[i..][1..] == order[i + 1..];
      var keep := true;
      for j := 0 to |out|
        invariant keep && forall k :: 0 <= k < j ==> !Overlaps(order[i], out[k], threshold)
      {
        if IoU(order[i].rectangle, out[j].rectangle) > threshold {
          keep := false;
          assert Overlaps(order[i], out[j], threshold);
          break;
        }
      }
      if !keep {
        continue;
      }
      assert !exists k :: k in out && Overlaps(order[i], k, threshold);
      out := out + [order[i]];
      if maxResults > 0 && |out| >= maxResults {
        return;
      }
    }
  }

  // Equals NonMaximumSuppression with the detector's own constants.
  method MergePersonDetections(items: seq<Detection>)
    returns (out: seq<Detection>, ghost sorted: seq<Detection>)
    ensures SortedPermutation(sorted, items, ByScore) && out == Keep(sorted, [], MERGE_THRESHOLD, MAX_PERSONS)
    ensures Suppressed(out, items, 0.45, 24)
  {
    if |items| <= 1 {
      KeepSuppresses(items, items, MERGE_THRESHOLD, MAX_PERSONS);
      return items, items;
    }
    var order := SortBy(items, ByScore);
    sorted := order;
    KeepSuppresses(order, items, MERGE_THRESHOLD, MAX_PERSONS);
    out := [];
    for i := 0 to |order|
      invariant Keep(order, [], MERGE_THRESHOLD, MAX_PERSONS) == Keep(order[i..], out, MERGE_THRESHOLD, MAX_PERSONS)
    {
      assert order[i..][1..] == order[i + 1..];
      var duplicate := false;
      for j := 0 to |out|
        invariant !duplicate && forall k :: 0 <= k < j ==> !Overlaps(order[i], out[k], MERGE_THRESHOLD)
      {
        if IoU(order[i].rectangle, out[j].rectangle) > MERGE_THRESHOLD {
          duplicate := true;
          assert Overlaps(order[i], out[j], MERGE_THRESHOLD);
          break;
        }
      }
      if duplicate {
        continue;
      }
      assert !exists k :: k in out && Overlaps(order[i], k, MERGE_THRESHOLD);
      out := out + [order[i]];
      if |out| >= MAX_PERSONS {
        return;
      }
    }
  }
}
