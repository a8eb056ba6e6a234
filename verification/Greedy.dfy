// Greedy one-to-one selection by descending score: detections to person tracks
// (internal/web/person_track.go) and faces to students (internal/web/recognition.go).
module Greedy {
  import opened Sorting

  // `left` is the detection; `right` the track or the student.
  datatype Candidate<R(==), P> = Candidate(left: nat, right: R, score: real, payload: P)

  predicate ByScore<R, P>(a: Candidate<R, P>, b: Candidate<R, P>) {
    a.score >= b.score
  }

  predicate Clash<R(==), P>(a: Candidate<R, P>, b: Candidate<R, P>) {
    a.left == b.left || a.right == b.right
  }

  predicate ConflictFree<R(==), P>(cs: seq<Candidate<R, P>>) {
    forall i, j :: 0 <= i < j < |cs| ==> !Clash(cs[i], cs[j])
  }

  // One pass over the candidates with the sets of detections and tracks in use.
  function Select<R(==), P>(cs: seq<Candidate<R, P>>, lefts: set<nat>, rights: set<R>): seq<Candidate<R, P>> {
    if cs == [] then []
    else if cs[0].left in lefts || cs[0].right in rights then Select(cs[1..], lefts, rights)
    else [cs[0]] + Select(cs[1..], lefts + {cs[0].left}, rights + {cs[0].right})
  }

  function Total<R, P>(cs: seq<Candidate<R, P>>): real {
    if cs == [] then 0.0 else cs[0].score + Total(cs[1..])
  }

  lemma {:induction false} SelectFromOutside<R, P>(cs: seq<Candidate<R, P>>, lefts: set<nat>, rights: set<R>)
    ensures forall s :: s in Select(cs, lefts, rights) ==>
              s in cs && s.left !in lefts && s.right !in rights
    ensures ConflictFree(Select(cs, lefts, rights))
  {
    if cs != [] {
      var c := cs[0];
      if c.left in lefts || c.right in rights {
        SelectFromOutside(cs[1..], lefts, rights);
      } else {
        SelectFromOutside(cs[1..], lefts + {c.left}, rights + {c.right});
        var tail := Select(cs[1..], lefts + {c.left}, rights + {c.right});
        forall i, j | 0 <= i < j < |[c] + tail|
          ensures !Clash(([c] + tail)[i], ([c] + tail)[j])
        {
          assert tail[j - 1] in tail;
        }
      }
    }
  }

  ghost predicate Descends<R, P>(selected: seq<Candidate<R, P>>) {
    forall i, j :: 0 <= i < j < |selected| ==> selected[i].score >= selected[j].score
  }

  // The selection is in the order of the scores.
  lemma {:induction false} SelectDescends<R, P>(cs: seq<Candidate<R, P>>, lefts: set<nat>, rights: set<R>)
    requires Sorted(cs, ByScore)
    ensures Descends(Select(cs, lefts, rights))
  {
    if cs != [] {
      var c := cs[0];
      if c.left in lefts || c.right in rights {
        SelectDescends(cs[1..], lefts, rights);
      } else {
        var tail := Select(cs[1..], lefts + {c.left}, rights + {c.right});
        SelectDescends(cs[1..], lefts + {c.left}, rights + {c.right});
        SelectFromOutside(cs[1..], lefts + {c.left}, rights + {c.right});
        forall j | 0 <= j < |tail|
          ensures c.score >= tail[j].score
        {
          assert tail[j] in tail;
          var k :| 0 <= k < |cs[1..]| && cs[1..][k] == tail[j];
          assert ByScore(cs[0], cs[k + 1]);
        }
      }
    }
  }

  // An unselected candidate is blocked: by a detection or track already in use,
  // or by a selected candidate that clashes with it and scores no less.
  lemma {:induction false} UnselectedIsBlocked<R, P>(cs: seq<Candidate<R, P>>, lefts: set<nat>, rights: set<R>,
                                                     c: Candidate<R, P>)
    requires Sorted(cs, ByScore) && c in cs
    ensures c.left in lefts || c.right in rights
            || exists s :: s in Select(cs, lefts, rights) && Clash(s, c) && s.score >= c.score
  {
    var h := cs[0];
    if c == h {
      assert Select(cs, lefts, rights) != [] ==> Select(cs, lefts, rights)[0] in Select(cs, lefts, rights);
    } else {
      assert c in cs[1..];
      var i :| 0 < i < |cs| && cs[i] == c;
      assert ByScore(cs[0], cs[i]);
      if h.left in lefts || h.right in rights {
        UnselectedIsBlocked(cs[1..], lefts, rights, c);
      } else {
        UnselectedIsBlocked(cs[1..], lefts + {h.left}, rights + {h.right}, c);
        var all, tail := Select(cs, lefts, rights), Select(cs[1..], lefts + {h.left}, rights + {h.right});
        assert all == [h] + tail && all[0] == h;
        if s :| s in tail && Clash(s, c) && s.score >= c.score {
          assert s in all;
        }
      }
    }
  }

  // The candidates of m that clash with c, and the others.
  function Clashing<R(==), P>(m: seq<Candidate<R, P>>, c: Candidate<R, P>, which: bool): seq<Candidate<R, P>> {
    if m == [] then []
    else (if Clash(m[0], c) == which then [m[0]] else []) + Clashing(m[1..], c, which)
  }

  lemma {:induction false} ClashingSplits<R, P>(m: seq<Candidate<R, P>>, c: Candidate<R, P>)
    ensures Total(m) == Total(Clashing(m, c, true)) + Total(Clashing(m, c, false))
  {
    if m != [] {
      ClashingSplits(m[1..], c);
      var w := Clash(m[0], c);
      assert Clashing(m, c, w) == [m[0]] + Clashing(m[1..], c, w);
      assert Clashing(m, c, !w) == Clashing(m[1..], c, !w);
    }
  }

  lemma {:induction false} ClashingFrom<R, P>(m: seq<Candidate<R, P>>, c: Candidate<R, P>, w: bool)
    ensures forall x :: x in Clashing(m, c, w) ==> x in m && Clash(x, c) == w
    ensures ConflictFree(m) ==> ConflictFree(Clashing(m, c, w))
  {
    if m != [] {
      ClashingFrom(m[1..], c, w);
      var tail := Clashing(m[1..], c, w);
      if ConflictFree(m) {
        forall j | 0 <= j < |tail|
          ensures !Clash(m[0], tail[j])
        {
          assert tail[j] in m[1..];
          var k :| 0 <= k < |m[1..]| && m[1..][k] == tail[j];
          assert !Clash(m[0], m[k + 1]);
        }
      }
    }
  }

  // At most two members of a conflict-free set clash with c: one for its
  // detection, one for its track.
  lemma AtMostTwo<R, P>(m: seq<Candidate<R, P>>, c: Candidate<R, P>, bound: real)
    requires ConflictFree(m) && forall x :: x in m ==> Clash(x, c) && x.score <= bound
    requires bound >= 0.0
    ensures Total(m) <= 2.0 * bound
  {
    assert forall i :: 0 <= i < |m| ==> Clash(m[i], c);
    var x := if |m| > 2 then m[0] else c;
    var y := if |m| > 2 then m[1] else c;
    var z := if |m| > 2 then m[2] else c;
    assert Clash(x, y) || Clash(x, z) || Clash(y, z);
    if |m| == 2 {
      assert m[0] in m && m[1] in m;
      assert Total(m) == m[0].score + (m[1].score + Total(m[1..][1..]));
    } else if |m| == 1 {
      assert m[0] in m;
    }
  }

  lemma HeadIsBest<R, P>(cs: seq<Candidate<R, P>>, m: seq<Candidate<R, P>>)
    requires cs != [] && Sorted(cs, ByScore) && forall x :: x in m ==> x in cs
    ensures forall x :: x in m ==> x.score <= cs[0].score
  {
    forall x | x in m
      ensures x.score <= cs[0].score
    {
      var i :| 0 <= i < |cs| && cs[i] == x;
      assert i > 0 ==> ByScore(cs[0], cs[i]);
    }
  }

  // No conflict-free set of candidates is worth more than twice the selection.
  lemma {:induction false} HalfOptimal<R, P>(cs: seq<Candidate<R, P>>, lefts: set<nat>, rights: set<R>,
                                             m: seq<Candidate<R, P>>)
    requires Sorted(cs, ByScore) && forall c :: c in cs ==> c.score >= 0.0
    requires ConflictFree(m)
    requires forall i :: 0 <= i < |m| ==> m[i] in cs && m[i].left !in lefts && m[i].right !in rights
    ensures Total(m) <= 2.0 * Total(Select(cs, lefts, rights))
  {
    if cs == [] {
      assert Total(m) == 0.0;
    } else {
      var c := cs[0];
      if c.left in lefts || c.right in rights {
        PassedOver(cs, lefts, rights, m);
        HalfOptimal(cs[1..], lefts, rights, m);
      } else {
        CutOut(cs, lefts, rights, m);
        HalfOptimal(cs[1..], lefts + {c.left}, rights + {c.right}, Clashing(m, c, false));
        Selected(cs, lefts, rights);
      }
    }
  }

  // A candidate that is passed over is in no set that avoids what is taken.
  lemma PassedOver<R, P>(cs: seq<Candidate<R, P>>, lefts: set<nat>, rights: set<R>, m: seq<Candidate<R, P>>)
    requires cs != [] && (cs[0].left in lefts || cs[0].right in rights)
    requires forall i :: 0 <= i < |m| ==> m[i] in cs && m[i].left !in lefts && m[i].right !in rights
    ensures Select(cs, lefts, rights) == Select(cs[1..], lefts, rights)
    ensures forall i :: 0 <= i < |m| ==> m[i] in cs[1..]
  {
    forall i | 0 <= i < |m|
      ensures m[i] in cs[1..]
    {
      assert m[i] != cs[0];
    }
  }

  lemma Selected<R, P>(cs: seq<Candidate<R, P>>, lefts: set<nat>, rights: set<R>)
    requires cs != [] && cs[0].left !in lefts && cs[0].right !in rights
    ensures Total(Select(cs, lefts, rights))
              == cs[0].score + Total(Select(cs[1..], lefts + {cs[0].left}, rights + {cs[0].right}))
  {
  }

  // Selecting the best candidate costs at most the two it rules out.
  lemma CutOut<R, P>(cs: seq<Candidate<R, P>>, lefts: set<nat>, rights: set<R>, m: seq<Candidate<R, P>>)
    requires cs != [] && Sorted(cs, ByScore) && cs[0].score >= 0.0
    requires cs[0].left !in lefts && cs[0].right !in rights
    requires ConflictFree(m) && forall c :: c in m ==> c in cs && c.left !in lefts && c.right !in rights
    ensures var c := cs[0]; var rest := Clashing(m, c, false);
            && Total(m) <= 2.0 * c.score + Total(rest)
            && ConflictFree(rest)
            && (forall x :: x in rest ==> x in cs[1..] && x.left !in lefts + {c.left} && x.right !in rights + {c.right})
  {
    var c := cs[0];
    ClashingSplits(m, c);
    ClashingFrom(m, c, true);
    ClashingFrom(m, c, false);
    HeadIsBest(cs, Clashing(m, c, true));
    AtMostTwo(Clashing(m, c, true), c, c.score);
  }

  // The guarantees of a selection from the candidates, in whatever order the
  // sort leaves ties.
  ghost predicate OneToOne<R(!new), P(!new)>(selected: seq<Candidate<R, P>>, candidates: seq<Candidate<R, P>>) {
    ConflictFree(selected) && forall s :: s in selected ==> s in candidates
  }

  ghost predicate Blocks<R(!new), P(!new)>(selected: seq<Candidate<R, P>>, c: Candidate<R, P>) {
    exists s :: s in selected && Clash(s, c) && s.score >= c.score
  }

  ghost predicate AtLeastHalf<R(!new), P(!new)>(selected: seq<Candidate<R, P>>, candidates: seq<Candidate<R, P>>) {
    forall m :: OneToOne(m, candidates) ==> Total(m) <= 2.0 * Total(selected)
  }

  ghost predicate GreedyMatching<R(!new), P(!new)>(selected: seq<Candidate<R, P>>, candidates: seq<Candidate<R, P>>) {
    && OneToOne(selected, candidates) && Descends(selected)
    && (forall c :: c in candidates ==> Blocks(selected, c))
    && AtLeastHalf(selected, candidates)
  }

  lemma SelectionIsGreedyMatching<R(!new), P(!new)>(sorted: seq<Candidate<R, P>>, candidates: seq<Candidate<R, P>>)
    requires SortedPermutation(sorted, candidates, ByScore)
    requires forall c :: c in candidates ==> c.score >= 0.0
    ensures GreedyMatching(Select(sorted, {}, {}), candidates)
  {
    SameElements(sorted, candidates);
    var selected := Select(sorted, {}, {});
    assert OneToOne(selected, candidates) by {
      SelectFromOutside(sorted, {}, {});
    }
    SelectDescends(sorted, {}, {});
    forall c | c in candidates
      ensures Blocks(selected, c)
    {
      UnselectedIsBlocked(sorted, {}, {}, c);
    }
    forall m | OneToOne(m, candidates)
      ensures Total(m) <= 2.0 * Total(selected)
    {
      HalfOptimal(sorted, {}, {}, m);
    }
  }

  // The sort and the selection loop.
  method Assign<R(==, !new), P(!new)>(candidates: seq<Candidate<R, P>>)
    returns (selected: seq<Candidate<R, P>>, ghost sorted: seq<Candidate<R, P>>)
    requires forall c :: c in candidates ==> c.score >= 0.0
    ensures SortedPermutation(sorted, candidates, ByScore) && selected == Select(sorted, {}, {})
    ensures GreedyMatching(selected, candidates)
  {
    var order := SortBy(candidates, ByScore);
    sorted := order;
    var usedLefts: set<nat>, usedRights: set<R> := {}, {};
    selected := [];
    for i := 0 to |order|
      invariant Select(order, {}, {}) == selected + Select(order[i..], usedLefts, usedRights)
    {
      var candidate := order[i];
      assert order[i..][1..] == order[i + 1..];
      if candidate.left in usedLefts || candidate.right in usedRights {
        continue;
      }
      usedLefts := usedLefts + {candidate.left};
      usedRights := usedRights + {candidate.right};
      selected := selected + [candidate];
    }
    SelectionIsGreedyMatching(order, candidates);
  }
}
