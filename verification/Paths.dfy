/** Runs of a step machine, and how stretches of them are put together. */
module Paths {

  predicate IsPath<S, T>(next: (S, T, S) -> bool, states: seq<S>, steps: seq<T>) {
    && |states| == |steps| + 1
    && forall k :: 0 <= k < |steps| ==> next(states[k], steps[k], states[k + 1])
  }

  lemma PathsJoin<S, T>(
    next: (S, T, S) -> bool, states: seq<S>, steps: seq<T>, more: seq<S>, moreSteps: seq<T>)
    requires IsPath(next, states, steps) && IsPath(next, more, moreSteps) && more[0] == states[|steps|]
    ensures IsPath(next, states + more[1..], steps + moreSteps)
  {
    var all, allSteps := states + more[1..], steps + moreSteps;
    forall k | 0 <= k < |allSteps| ensures next(all[k], allSteps[k], all[k + 1]) {
      if k < |steps| {
        assert all[k] == states[k] && all[k + 1] == states[k + 1] && allSteps[k] == steps[k];
      } else {
        var i := k - |steps|;
        assert all[k] == more[i] && all[k + 1] == more[i + 1] && allSteps[k] == moreSteps[i];
      }
    }
  }
}
