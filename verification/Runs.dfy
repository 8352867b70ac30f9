/** Runs of a state machine, given by its step: None where the action is not possible. */
module Runs {
  import opened Common

  /** Where the run leads, if every action of it is possible in its turn. */
  function After<S, A>(step: (S, A) -> Option<S>, s: S, run: seq<A>): Option<S>
    decreases |run|
  {
    if run == [] then Some(s)
    else
      var next := step(s, run[0]);
      if next.None? then None else After(step, next.value, run[1..])
  }

  /** What every possible step keeps holds after every possible run. */
  lemma {:induction false} InvariantHolds<S(!new), A(!new)>(step: (S, A) -> Option<S>, inv: S -> bool, s: S, run: seq<A>)
    requires inv(s) && After(step, s, run).Some?
    requires forall t, a :: inv(t) && step(t, a).Some? ==> inv(step(t, a).value)
    ensures inv(After(step, s, run).value)
    decreases |run|
  {
    if run != [] {
      InvariantHolds(step, inv, step(s, run[0]).value, run[1..]);
    }
  }

  /** A run through the given states. */
  lemma {:induction false} RunThrough<S, A>(step: (S, A) -> Option<S>, states: seq<S>, run: seq<A>)
    requires |states| == |run| + 1
    requires forall i :: 0 <= i < |run| ==> step(states[i], run[i]) == Some(states[i + 1])
    ensures After(step, states[0], run) == Some(states[|run|])
    decreases |run|
  {
    if run != [] {
      forall i | 0 <= i < |run[1..]|
        ensures step(states[1..][i], run[1..][i]) == Some(states[1..][i + 1])
      {
        assert step(states[i + 1], run[i + 1]) == Some(states[i + 1 + 1]);
      }
      RunThrough(step, states[1..], run[1..]);
      assert step(states[0], run[0]) == Some(states[1]);
    }
  }
}
