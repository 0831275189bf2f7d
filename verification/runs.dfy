/** Runs of a state machine given by its step relation. */
module Runs {

  /** trace goes from state to state by the actions, one step each. */
  ghost predicate Chain<S, A>(step: (S, A, S) -> bool, trace: seq<S>, actions: seq<A>)
  {
    |trace| == |actions| + 1 && forall i :: 0 <= i < |actions| ==> step(trace[i], actions[i], trace[i + 1])
  }

  lemma ChainSnoc<S, A>(step: (S, A, S) -> bool, trace: seq<S>, actions: seq<A>, a: A, r: S)
    requires Chain(step, trace, actions) && step(trace[|trace| - 1], a, r)
    ensures Chain(step, trace + [r], actions + [a])
  {
    var longer, more := trace + [r], actions + [a];
    forall i | 0 <= i < |more| ensures step(longer[i], more[i], longer[i + 1]) {
      if i < |actions| {
        assert longer[i] == trace[i] && longer[i + 1] == trace[i + 1] && more[i] == actions[i];
      }
    }
  }

  /** Some run from an initial state ends in s. */
  ghost predicate Reachable<S(!new), A(!new)>(initial: S -> bool, step: (S, A, S) -> bool, s: S)
  {
    exists trace: seq<S>, actions: seq<A> ::
      Chain(step, trace, actions) && initial(trace[0]) && trace[|trace| - 1] == s
  }

  lemma InitialIsReachable<S(!new), A(!new)>(initial: S -> bool, step: (S, A, S) -> bool, s: S)
    requires initial(s)
    ensures Reachable(initial, step, s)
  {
    var trace: seq<S>, actions: seq<A> := [s], [];
    assert Chain(step, trace, actions) && trace[0] == s;
  }

  lemma StepIsReachable<S(!new), A(!new)>(initial: S -> bool, step: (S, A, S) -> bool, s: S, a: A, r: S)
    requires Reachable(initial, step, s) && step(s, a, r)
    ensures Reachable(initial, step, r)
  {
    var trace: seq<S>, actions: seq<A> :| Chain(step, trace, actions) && initial(trace[0]) && trace[|trace| - 1] == s;
    ChainSnoc(step, trace, actions, a, r);
    assert (trace + [r])[0] == trace[0];
  }
}
