/** Runs of a transition system whose step is a partial function of state and action. */
module Runs {
  import opened Prelude

  // states[0] is initial and each action leads from one state to the next.
  ghost predicate IsRun<S(!new), A(!new)>(init: S -> bool, step: (S, A) -> Option<S>, states: seq<S>, actions: seq<A>) {
    && |states| == |actions| + 1
    && init(states[0])
    && forall i :: 0 <= i < |actions| ==> step(states[i], actions[i]) == Some(states[i + 1])
  }

  ghost predicate Inductive<S(!new), A(!new)>(init: S -> bool, step: (S, A) -> Option<S>, inv: S -> bool) {
    && (forall s :: init(s) ==> inv(s))
    && (forall s, a :: inv(s) && step(s, a).Some? ==> inv(step(s, a).value))
  }

  // An inductive invariant holds in every state of every run.
  lemma {:induction false} InvariantHolds<S(!new), A(!new)>(
    init: S -> bool, step: (S, A) -> Option<S>, inv: S -> bool, states: seq<S>, actions: seq<A>, i: nat)
    requires Inductive(init, step, inv) && IsRun(init, step, states, actions) && i < |states|
    ensures inv(states[i])
  {
    if i > 0 {
      InvariantHolds(init, step, inv, states, actions, i - 1);
      assert step(states[i - 1], actions[i - 1]) == Some(states[i]);
    }
  }

  ghost predicate Monotone<S(!new), A(!new)>(step: (S, A) -> Option<S>, le: (S, S) -> bool) {
    && (forall s :: le(s, s))
    && (forall s, t, u :: le(s, t) && le(t, u) ==> le(s, u))
    && (forall s, a :: step(s, a).Some? ==> le(s, step(s, a).value))
  }

  // A preorder that every step respects relates any earlier to any later state.
  lemma {:induction false} LaterIsGreater<S(!new), A(!new)>(
    init: S -> bool, step: (S, A) -> Option<S>, le: (S, S) -> bool, states: seq<S>, actions: seq<A>, i: nat, j: nat)
    requires Monotone(step, le) && IsRun(init, step, states, actions) && i <= j < |states|
    ensures le(states[i], states[j])
  {
    if i < j {
      LaterIsGreater(init, step, le, states, actions, i, j - 1);
      assert step(states[j - 1], actions[j - 1]) == Some(states[j]);
    }
  }

  // Some run ends in s.
  ghost predicate Reachable<S(!new), A(!new)>(init: S -> bool, step: (S, A) -> Option<S>, s: S) {
    exists states: seq<S>, actions: seq<A> :: IsRun(init, step, states, actions) && states[|states| - 1] == s
  }

  lemma StartIsReachable<S(!new), A(!new)>(init: S -> bool, step: (S, A) -> Option<S>, s: S)
    requires init(s)
    ensures Reachable(init, step, s)
  {
    var none: seq<A> := [];
    assert IsRun(init, step, [s], none);
  }

  lemma RunExtends<S(!new), A(!new)>(init: S -> bool, step: (S, A) -> Option<S>, states: seq<S>, actions: seq<A>, a: A)
    requires IsRun(init, step, states, actions) && step(states[|actions|], a).Some?
    ensures IsRun(init, step, states + [step(states[|actions|], a).value], actions + [a])
  {
    var longer, taken := states + [step(states[|actions|], a).value], actions + [a];
    forall i | 0 <= i < |taken| ensures step(longer[i], taken[i]) == Some(longer[i + 1]) {
      if i < |actions| {
        assert step(states[i], actions[i]) == Some(states[i + 1]);
      }
    }
  }

  lemma StepIsReachable<S(!new), A(!new)>(init: S -> bool, step: (S, A) -> Option<S>, s: S, a: A)
    requires Reachable(init, step, s) && step(s, a).Some?
    ensures Reachable(init, step, step(s, a).value)
  {
    var states: seq<S>, actions: seq<A> :| IsRun(init, step, states, actions) && states[|states| - 1] == s;
    RunExtends(init, step, states, actions, a);
    var longer := states + [step(s, a).value];
    assert longer[|longer| - 1] == step(s, a).value;
  }

  // Every state of a run is reachable.
  lemma {:induction false} RunReaches<S(!new), A(!new)>(
    init: S -> bool, step: (S, A) -> Option<S>, states: seq<S>, actions: seq<A>, i: nat)
    requires IsRun(init, step, states, actions) && i < |states|
    ensures Reachable(init, step, states[i])
  {
    if i == 0 {
      StartIsReachable(init, step, states[0]);
    } else {
      RunReaches(init, step, states, actions, i - 1);
      assert step(states[i - 1], actions[i - 1]) == Some(states[i]);
      StepIsReachable(init, step, states[i - 1], actions[i - 1]);
    }
  }

  // An inductive invariant holds wherever a run can lead.
  lemma InvariantReached<S(!new), A(!new)>(init: S -> bool, step: (S, A) -> Option<S>, inv: S -> bool, s: S)
    requires Inductive(init, step, inv) && Reachable(init, step, s)
    ensures inv(s)
  {
    var states: seq<S>, actions: seq<A> :| IsRun(init, step, states, actions) && states[|states| - 1] == s;
    InvariantHolds(init, step, inv, states, actions, |states| - 1);
  }
}
