// recognizePreparedImage on the objects it works on: the liveness tracker and
// the attendance table.
module RecognitionServer {
  import opened Prelude
  import opened Liveness
  import opened Attendance
  import opened Greedy
  import opened Recognition

  // A face matched to a student: left is the face, right the student; the
  // payload tells a freshly computed feature from a remembered identity.
  type FaceMatch = Candidate<nat, bool>

  // The observations of the selected matches; a face whose liveness model fails
  // is left out.
  function ObservationsOf(selected: seq<FaceMatch>, live: map<nat, real>): seq<Observation> {
    if selected == [] then []
    else
      var m := selected[|selected| - 1];
      ObservationsOf(selected[..|selected| - 1], live) +
      if m.left in live then [Observation(m.right, m.score, live[m.left])] else []
  }

  lemma {:induction false} SelectedStudentsDistinct(selected: seq<FaceMatch>, live: map<nat, real>)
    requires ConflictFree(selected)
    ensures DistinctStudents(ObservationsOf(selected, live))
    ensures forall o :: o in ObservationsOf(selected, live) ==>
              exists i :: 0 <= i < |selected| && selected[i].right == o.student
  {
    if selected != [] {
      var before := selected[..|selected| - 1];
      SelectedStudentsDistinct(before, live);
      var os := ObservationsOf(before, live);
      forall i | 0 <= i < |os|
        ensures os[i].student != selected[|before|].right
      {
        var k :| 0 <= k < |before| && before[k].right == os[i].student;
        assert !Clash(selected[k], selected[|before|]);
      }
      forall o | o in ObservationsOf(selected, live)
        ensures exists i :: 0 <= i < |selected| && selected[i].right == o.student
      {
        if o in os {
          var k :| 0 <= k < |before| && before[k].right == o.student;
          assert selected[k].right == o.student;
        } else {
          assert selected[|before|].right == o.student;
        }
      }
    }
  }

  // The face's student, with the score as similarity and the face's liveness score.
  predicate Tells(o: Observation, m: FaceMatch, live: map<nat, real>) {
    m.left in live && o.student == m.right && o.similarity == m.score && o.liveScore == live[m.left]
  }

  // The observation k is that of the selected match at[k], and every selected match
  // whose face has a liveness score is observed.
  ghost predicate ObservedAt(os: seq<Observation>, selected: seq<FaceMatch>, live: map<nat, real>, at: seq<nat>) {
    && |at| == |os|
    && (forall k: nat :: k < |os| ==> at[k] < |selected| && Tells(os[k], selected[at[k]], live))
    && (forall i: nat :: i < |selected| && selected[i].left in live ==> i in at)
  }

  ghost predicate Increasing(at: seq<nat>) {
    forall j: nat, k: nat :: j < k < |at| ==> at[j] < at[k]
  }

  // The observations are those of the selected matches, in their order.
  ghost predicate Observes(os: seq<Observation>, selected: seq<FaceMatch>, live: map<nat, real>) {
    exists at: seq<nat> :: Increasing(at) && ObservedAt(os, selected, live, at)
  }

  lemma {:induction false} SelectedAreObserved(selected: seq<FaceMatch>, live: map<nat, real>)
    ensures Observes(ObservationsOf(selected, live), selected, live)
  {
    if selected == [] {
      var at: seq<nat> := [];
      assert Increasing(at) && ObservedAt([], selected, live, at);
    } else {
      var before, m := selected[..|selected| - 1], selected[|selected| - 1];
      SelectedAreObserved(before, live);
      assert before + [m] == selected;
      ObservedNext(ObservationsOf(before, live), before, live, m);
    }
  }

  lemma ObservedNext(os: seq<Observation>, before: seq<FaceMatch>, live: map<nat, real>, m: FaceMatch)
    requires Observes(os, before, live)
    ensures Observes(os + if m.left in live then [Observation(m.right, m.score, live[m.left])] else [],
                     before + [m], live)
  {
    var at: seq<nat> :| Increasing(at) && ObservedAt(os, before, live, at);
    if m.left in live {
      TakenNext(os, before, live, at, m);
    } else {
      PassedNext(os, before, live, at, m);
      assert os + [] == os;
    }
  }

  lemma TakenNext(os: seq<Observation>, before: seq<FaceMatch>, live: map<nat, real>, at: seq<nat>, m: FaceMatch)
    requires Increasing(at) && ObservedAt(os, before, live, at) && m.left in live
    ensures Increasing(at + [|before|])
    ensures ObservedAt(os + [Observation(m.right, m.score, live[m.left])], before + [m], live, at + [|before|])
  {
    var at' := at + [|before|];
    forall i: nat | i < |before| + 1 && (before + [m])[i].left in live
      ensures i in at'
    {
      assert i == |before| ==> at'[|at|] == i;
    }
  }

  lemma PassedNext(os: seq<Observation>, before: seq<FaceMatch>, live: map<nat, real>, at: seq<nat>, m: FaceMatch)
    requires ObservedAt(os, before, live, at) && m.left !in live
    ensures ObservedAt(os, before + [m], live, at)
  {
  }

  class Server {
    const tracker: RecognitionTracker
    const table: AttendanceTable
    var attempts: seq<Attempt>

    function State(): World
      reads this, tracker, table
    {
      World(tracker.sessions, table.rows, attempts)
    }

    // Holds between frames: at most one successful attendance per track id, and
    // the table is what the attempts made of it.
    ghost predicate Valid()
      reads this, tracker, table
    {
      tracker.Valid() && RunValid(State(), table.enrolled)
    }

    constructor (enrolled: set<nat>)
      ensures Valid() && State() == World(map[], map[], []) && table.enrolled == enrolled
      ensures fresh(tracker) && fresh(table)
    {
      tracker := new RecognitionTracker();
      table := new AttendanceTable(enrolled);
      attempts := [];
      new;
      assert Marks([]) == [];
    }

    // One frame, from the candidates on. `live` gives the liveness score of the
    // faces whose model run succeeds; `faults` the failing statement per decision.
    method RecognizeFrame(sessionId: string, candidates: seq<FaceMatch>, live: map<nat, real>,
                          now: int, day: string, faults: seq<Fault>)
      returns (tally: Tally, failed: bool, ghost frame: Frame, ghost selected: seq<FaceMatch>)
      requires Valid() && sessionId != ""
      requires forall c :: c in candidates ==> c.score >= 0.0
      modifies this, tracker, table
      ensures Valid() && unchanged(table`enrolled)
      ensures GreedyMatching(selected, candidates)
      ensures Observes(frame.observations, selected, live)
      ensures frame == Frame(sessionId, ObservationsOf(selected, live), now, day, faults) && ProperFrame(frame)
      ensures (State(), tally, failed) == RunFrame(old(State()), table.enrolled, frame)
    {
      var observations;
      observations, selected := SelectFaces(candidates, live);
      frame := Frame(sessionId, observations, now, day, faults);
      RunFrameKeeps(State(), table.enrolled, tracker.past, frame);
      var decisions := tracker.Observe(sessionId, observations, now);
      tally, failed := Decide(sessionId, observations, decisions, now, day, faults, frame);
    }

    // The selection, and the observations it gives.
    static method SelectFaces(candidates: seq<FaceMatch>, live: map<nat, real>)
      returns (observations: seq<Observation>, ghost selected: seq<FaceMatch>)
      requires forall c :: c in candidates ==> c.score >= 0.0
      ensures GreedyMatching(selected, candidates)
      ensures Observes(observations, selected, live)
      ensures observations == ObservationsOf(selected, live) && DistinctStudents(observations)
    {
      var matches;
      ghost var sorted;
      matches, sorted := Assign(candidates);
      selected := matches;
      observations := Observe(matches, live);
      SelectedAreObserved(matches, live);
      SelectedStudentsDistinct(matches, live);
    }

    static method Observe(matches: seq<FaceMatch>, live: map<nat, real>) returns (observations: seq<Observation>)
      ensures observations == ObservationsOf(matches, live)
    {
      observations := [];
      for i := 0 to |matches|
        invariant observations == ObservationsOf(matches[..i], live)
      {
        assert matches[..i + 1][..i] == matches[..i];
        var m := matches[i];
        if m.left !in live {
          continue;
        }
        observations := observations + [Observation(m.right, m.score, live[m.left])];
      }
      assert matches[..|matches|] == matches;
    }

    // The loop over the decisions.
    method Decide(sessionId: string, observations: seq<Observation>, decisions: seq<Decision>,
                  now: int, day: string, faults: seq<Fault>, ghost frame: Frame)
      returns (tally: Tally, failed: bool)
      requires tracker.Valid() && |decisions| == |observations|
      requires frame == Frame(sessionId, observations, now, day, faults)
      modifies this, tracker`sessions, table`rows
      ensures tracker.Valid()
      ensures (State(), tally, failed) == AfterDecisions(old(State()), table.enrolled, frame, decisions, |decisions|)
    {
      tally, failed := Tally(0, 0, 0, 0), false;
      for i := 0 to |decisions|
        invariant tracker.Valid()
        invariant !failed
        invariant (State(), tally, false) == AfterDecisions(old(State()), table.enrolled, frame, decisions, i)
      {
        var decision := decisions[i];
        if decision.rejected {
          tally := tally.(spoof := tally.spoof + 1);
        } else if decision.verified {
          tally := tally.(verified := tally.verified + 1);
          if decision.needsAttendance {
            var fault := if i < |faults| then faults[i] else NoFault;
            var call := Call(observations[i].student, day, observations[i].similarity, now, fault);
            var result := table.MarkAttendance(call.student, day, call.similarity, now, fault);
            attempts := attempts + [Attempt(decision.trackId, call, result.Ok?)];
            if result.Err? {
              failed := true;
              StoppedStays(old(State()), table.enrolled, frame, decisions, i + 1, |decisions|);
              return;
            }
            tracker.Commit(sessionId, decision.trackId);
          }
        } else if decision.timedOut {
          tally := tally.(timedOut := tally.timedOut + 1);
        } else {
          tally := tally.(pending := tally.pending + 1);
        }
      }
    }
  }
}
