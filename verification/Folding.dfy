// Steps carried out one after another on a list of inputs.
module Folding {

  ghost function Fold<S, I>(next: (S, I) -> S, start: S, input: seq<I>): S {
    if input == [] then start else next(Fold(next, start, input[..|input| - 1]), input[|input| - 1])
  }

  // What every step keeps, all steps keep.
  lemma {:induction false} FoldInduction<S(!new), I(!new)>(inv: (S, seq<I>) -> bool, next: (S, I) -> S, start: S,
                                                           input: seq<I>)
    requires inv(start, [])
    requires forall x: S, before: seq<I>, i: I :: inv(x, before) ==> inv(next(x, i), before + [i])
    ensures inv(Fold(next, start, input), input)
  {
    if input != [] {
      var before, i := input[..|input| - 1], input[|input| - 1];
      FoldInduction(inv, next, start, before);
      assert before + [i] == input;
    }
  }

  // The state and the answers when every step answers.
  ghost function Trace<S, I, O>(next: (S, I) -> (S, O), start: S, input: seq<I>): (r: (S, seq<O>))
    ensures |r.1| == |input|
  {
    if input == [] then (start, [])
    else
      var (s, answers) := Trace(next, start, input[..|input| - 1]);
      var (t, answer) := next(s, input[|input| - 1]);
      (t, answers + [answer])
  }

  lemma {:induction false} TraceAt<S, I, O>(next: (S, I) -> (S, O), start: S, input: seq<I>, i: nat)
    requires i < |input|
    ensures Trace(next, start, input).1[i] == next(Trace(next, start, input[..i]).0, input[i]).1
  {
    if i < |input| - 1 {
      TraceAt(next, start, input[..|input| - 1], i);
      assert input[..|input| - 1][..i] == input[..i];
    }
  }

  // What is made of the inputs that are kept, each in view of what was made before.
  ghost function Collect<I, T>(keeps: I -> bool, make: (seq<T>, I) -> T, input: seq<I>): seq<T> {
    if input == [] then []
    else
      var before, last := Collect(keeps, make, input[..|input| - 1]), input[|input| - 1];
      if keeps(last) then before + [make(before, last)] else before
  }

  // The k-th thing made is that of the input at[k].
  ghost predicate MadeAt<I, T>(keeps: I -> bool, make: (seq<T>, I) -> T, input: seq<I>, made: seq<T>, at: seq<nat>) {
    && |at| == |made|
    && (forall k: nat :: k < |made| ==>
          at[k] < |input| && keeps(input[at[k]]) && made[k] == make(made[..k], input[at[k]]))
    && (forall j: nat, k: nat :: j < k < |at| ==> at[j] < at[k])
    && (forall i: nat :: i < |input| && keeps(input[i]) ==> i in at)
  }

  lemma {:induction false} CollectMakes<I, T>(keeps: I -> bool, make: (seq<T>, I) -> T, input: seq<I>)
    ensures exists at: seq<nat> :: MadeAt(keeps, make, input, Collect(keeps, make, input), at)
  {
    if input == [] {
      var at: seq<nat> := [];
      assert MadeAt(keeps, make, input, Collect(keeps, make, input), at);
    } else {
      var before, last := input[..|input| - 1], input[|input| - 1];
      CollectMakes(keeps, make, before);
      var made := Collect(keeps, make, before);
      var at: seq<nat> :| MadeAt(keeps, make, before, made, at);
      assert before + [last] == input;
      if keeps(last) {
        MakesNext(keeps, make, before, last, made, at);
        var at': seq<nat> := at + [|before|];
        assert Collect(keeps, make, input) == made + [make(made, last)];
        assert MadeAt(keeps, make, input, Collect(keeps, make, input), at');
      } else {
        PassesNext(keeps, make, before, last, made, at);
        assert Collect(keeps, make, input) == made;
        assert MadeAt(keeps, make, input, Collect(keeps, make, input), at);
      }
    }
  }

  lemma PassesNext<I, T>(keeps: I -> bool, make: (seq<T>, I) -> T, before: seq<I>, last: I, made: seq<T>, at: seq<nat>)
    requires MadeAt(keeps, make, before, made, at) && !keeps(last)
    ensures MadeAt(keeps, make, before + [last], made, at)
  {
  }

  lemma MakesNext<I, T>(keeps: I -> bool, make: (seq<T>, I) -> T, before: seq<I>, last: I, made: seq<T>, at: seq<nat>)
    requires MadeAt(keeps, make, before, made, at) && keeps(last)
    ensures MadeAt(keeps, make, before + [last], made + [make(made, last)], at + [|before|])
  {
    var input, more, at' := before + [last], made + [make(made, last)], at + [|before|];
    forall k: nat | k < |more|
      ensures at'[k] < |input| && keeps(input[at'[k]]) && more[k] == make(more[..k], input[at'[k]])
    {
      assert k < |made| ==> more[..k] == made[..k];
      assert more[..|made|] == made;
    }
    forall i: nat | i < |input| && keeps(input[i])
      ensures i in at'
    {
      assert i == |before| ==> at'[|at|] == i;
    }
  }
}
