/** Runs of a step system: states and the steps between them. */
module Runs {

  function Last<T>(s: seq<T>): T
    requires s != []
  {
    s[|s|-1]
  }

  /** Each state is followed by one that `next` allows for the step taken. */
  ghost predicate Path<S(!new), T(!new)>(next: (S, T, S) -> bool, run: seq<S>, steps: seq<T>) {
    && |run| == |steps| + 1
    && forall i {:trigger steps[i]} :: 0 <= i < |steps| ==> next(run[i], steps[i], run[i+1])
  }

  lemma PathUpTo<S(!new), T(!new)>(next: (S, T, S) -> bool, run: seq<S>, steps: seq<T>, j: nat)
    requires Path(next, run, steps) && j < |run|
    ensures Path(next, run[..j+1], steps[..j])
    ensures Last(run[..j+1]) == run[j] && run[..j+1][0] == run[0]
  {
    forall i | 0 <= i < j
      ensures next(run[..j+1][i], steps[..j][i], run[..j+1][i+1])
    {
      assert steps[..j][i] == steps[i] && run[..j+1][i+1] == run[i+1];
    }
  }

  lemma PathPrefix<S(!new), T(!new)>(next: (S, T, S) -> bool, run: seq<S>, steps: seq<T>)
    requires Path(next, run, steps) && steps != []
    ensures Path(next, run[..|run|-1], steps[..|steps|-1])
    ensures Last(run[..|run|-1]) == run[|steps|-1] && run[..|run|-1][0] == run[0]
    ensures next(run[|steps|-1], Last(steps), Last(run))
  {
    PathUpTo(next, run, steps, |steps| - 1);
    assert next(run[|steps|-1], steps[|steps|-1], run[|steps|]);
  }

  /** One more step. */
  lemma Take<S(!new), T(!new)>(next: (S, T, S) -> bool, run0: seq<S>, steps0: seq<T>, step: T, s: S)
      returns (run: seq<S>, steps: seq<T>)
    requires Path(next, run0, steps0) && next(Last(run0), step, s)
    ensures Path(next, run, steps) && Last(run) == s && run[0] == run0[0]
    ensures run == run0 + [s] && steps == steps0 + [step]
  {
    run, steps := run0 + [s], steps0 + [step];
    forall i | 0 <= i < |steps|
      ensures next(run[i], steps[i], run[i+1])
    {
      if i < |steps0| {
        assert steps[i] == steps0[i] && run[i] == run0[i] && run[i+1] == run0[i+1];
      }
    }
  }
}
