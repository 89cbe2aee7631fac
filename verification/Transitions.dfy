/** Runs of an arbitrary transition system. */
module Transitions {

  ghost predicate IsRun<S, E>(next: (S, E, S) -> bool, states: seq<S>, events: seq<E>) {
    && |states| == |events| + 1
    && forall i, j :: 0 <= i < |events| && j == i + 1 ==> next(states[i], events[i], states[j])
  }

  ghost predicate Inductive<S(!new), E(!new)>(inv: S -> bool, next: (S, E, S) -> bool) {
    forall s, e, t :: inv(s) && next(s, e, t) ==> inv(t)
  }

  /** What holds at the start and is kept by every step holds throughout. */
  lemma {:induction false} InvariantHolds<S(!new), E(!new)>(inv: S -> bool, next: (S, E, S) -> bool, states: seq<S>, events: seq<E>, n: nat)
    requires Inductive(inv, next) && IsRun(next, states, events) && inv(states[0]) && n < |states|
    ensures inv(states[n])
  {
    if n > 0 {
      InvariantHolds(inv, next, states, events, n - 1);
      assert next(states[n - 1], events[n - 1], states[n]);
    }
  }
}
