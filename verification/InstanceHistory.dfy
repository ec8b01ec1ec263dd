/** The status and the recorded error of a code-server instance (internal/codeserver/registry.go), told
 from what has happened to it alone. */
module InstanceHistory {
  import opened Prelude
  import opened InstanceLifecycle

  // What ends the starting phase, if it has not ended before.
  predicate Leaves(a: Action) {
    a.StartTimeoutFires? || a.ProcessExits? || a.PortCommitted? || a.CloseMarks?
  }

  // None of it among the first i actions.
  ghost predicate Untouched(actions: seq<Action>, i: nat)
    requires i <= |actions|
  {
    forall m :: 0 <= m < i ==> !Leaves(actions[m])
  }

  // What PortReady returned last.
  function Returned(actions: seq<Action>): Option<Outcome> {
    if actions == [] then None
    else
      match actions[|actions| - 1]
      case PortReadyReturns(o) => Some(o)
      case _ => Returned(actions[..|actions| - 1])
  }

  // The port reported first.
  function FirstPort(actions: seq<Action>): Option<int> {
    if actions == [] then None
    else
      match actions[0]
      case PortFound(p) => Some(p)
      case _ => FirstPort(actions[1..])
  }

  // At k a port that PortReady accepted is committed while the instance is starting.
  ghost predicate ComesUp(actions: seq<Action>, k: nat) {
    && k < |actions| && actions[k].PortCommitted? && Untouched(actions, k)
    && Returned(actions[..k]).Some? && !Returned(actions[..k]).value.failed
  }

  // After the first i actions the instance has come up, and neither exited nor been closed since.
  ghost predicate Up(actions: seq<Action>, i: nat)
    requires i <= |actions|
  {
    exists k: nat :: ComesUp(actions, k) && k < i
                  && forall m :: k < m < i ==> !actions[m].ProcessExits? && !actions[m].CloseMarks?
  }

  ghost predicate Closed(actions: seq<Action>, i: nat)
    requires i <= |actions|
  {
    exists m :: 0 <= m < i && actions[m].CloseMarks?
  }

  // Does the k-th action make c the error: a timeout while starting, the end of the process while
  // starting or up, or the commit of a port that PortReady rejected while starting?
  ghost predicate Records(actions: seq<Action>, k: nat, c: Cause)
    requires k < |actions|
  {
    match c
    case TimedOut => actions[k].StartTimeoutFires? && Untouched(actions, k)
    case Exited(clean) => actions[k] == ProcessExits(clean) && (Untouched(actions, k) || Up(actions, k))
    case ResolveFailed(port) =>
      && actions[k].PortCommitted? && Untouched(actions, k) && FirstPort(actions[..k]) == Some(port)
      && Returned(actions[..k]).Some? && Returned(actions[..k]).value.failed
  }

  lemma {:induction false} FirstPortGrows(front: seq<Action>, a: Action)
    ensures FirstPort(front + [a]) ==
            if FirstPort(front).None? && a.PortFound? then Some(a.port) else FirstPort(front)
  {
    if front == [] {
      assert (front + [a])[1..] == [];
    } else {
      assert (front + [a])[1..] == front[1..] + [a];
      FirstPortGrows(front[1..], a);
    }
  }

  lemma ReturnedGrows(front: seq<Action>, a: Action)
    ensures Returned(front + [a]) == if a.PortReadyReturns? then Some(a.result) else Returned(front)
  {
    FrontOfAppended(front, a);
  }

  function FirstReported(s: System): Option<int> {
    if s.reported == [] then None else Some(s.reported[0])
  }

  // What one step does to the reader's history, to the status and to the error.

  predicate ReaderMoves(s: System, a: Action, t: System) {
    && t.outcome == (if a.PortReadyReturns? then Some(a.result) else s.outcome)
    && FirstReported(t) == (if FirstReported(s).None? && a.PortFound? then Some(a.port) else FirstReported(s))
  }

  predicate StatusMoves(s: System, a: Action, t: System) {
    var before, after := s.fields.status, t.fields.status;
    && (after.Starting? <==> before.Starting? && !Leaves(a))
    && (after.Running? <==>
          || (before.Starting? && a.PortCommitted? && s.outcome.Some? && !s.outcome.value.failed)
          || (before.Running? && !a.ProcessExits? && !a.CloseMarks?))
    && (after.Stopped? <==> before.Stopped? || a.CloseMarks?)
  }

  predicate CauseMoves(s: System, a: Action, t: System, c: Cause) {
    t.fields.err == Some(c) <==>
    || s.fields.err == Some(c)
    || match c
       case TimedOut => a.StartTimeoutFires? && s.fields.status.Starting?
       case Exited(clean) => a == ProcessExits(clean) && (s.fields.status.Starting? || s.fields.status.Running?)
       case ResolveFailed(port) =>
         && a.PortCommitted? && s.fields.status.Starting? && s.outcome.Some? && s.outcome.value.failed
         && FirstReported(s) == Some(port)
  }

  predicate AskMoves(s: System, a: Action, t: System) {
    && t.asked == (if a.PortFound? && s.fields.status.Starting? then Some(a.port) else s.asked)
    && (a.PortFound? && s.fields.status.Starting? ==> s.asked.None?)
  }

  lemma AskStep(s: System, a: Action)
    requires ReportInv(s) && ReaderInv(s) && Step(s, a).Some?
    ensures AskMoves(s, a, Step(s, a).value)
  {
  }

  lemma ReaderStep(s: System, a: Action)
    requires Step(s, a).Some?
    ensures ReaderMoves(s, a, Step(s, a).value)
  {
  }

  lemma StatusStep(s: System, a: Action)
    requires ReaderInv(s) && Step(s, a).Some?
    ensures StatusMoves(s, a, Step(s, a).value)
  {
  }

  lemma CauseStep(s: System, a: Action, c: Cause)
    requires ReportInv(s) && ReaderInv(s) && ErrorInv(s) && Step(s, a).Some?
    ensures CauseMoves(s, a, Step(s, a).value, c)
  {
  }

  // A run, as far as it matters here.
  ghost predicate Traced(states: seq<System>, actions: seq<Action>, c: Cause) {
    && |states| == |actions| + 1
    && states[0].fields == LAUNCHED && states[0].outcome.None? && states[0].reported == [] && states[0].asked.None?
    && forall k :: 0 <= k < |actions| ==>
         var s, a, t := states[k], actions[k], states[k + 1];
         ReaderMoves(s, a, t) && StatusMoves(s, a, t) && CauseMoves(s, a, t, c) && AskMoves(s, a, t)
  }

  lemma RunIsTraced(states: seq<System>, actions: seq<Action>, c: Cause)
    requires IsRun(states, actions)
    ensures Traced(states, actions, c)
  {
    forall k | 0 <= k < |actions|
      ensures var s, a, t := states[k], actions[k], states[k + 1];
              ReaderMoves(s, a, t) && StatusMoves(s, a, t) && CauseMoves(s, a, t, c) && AskMoves(s, a, t)
    {
      assert Step(states[k], actions[k]) == Some(states[k + 1]);
      RunKeepsInv(states, actions, k);
      ReaderStep(states[k], actions[k]);
      StatusStep(states[k], actions[k]);
      CauseStep(states[k], actions[k], c);
      AskStep(states[k], actions[k]);
    }
  }

  lemma UpGrows(actions: seq<Action>, i: nat)
    requires i < |actions|
    ensures Up(actions, i + 1) <==>
            ComesUp(actions, i) || (Up(actions, i) && !actions[i].ProcessExits? && !actions[i].CloseMarks?)
  {
    if Up(actions, i) && !actions[i].ProcessExits? && !actions[i].CloseMarks? {
      var k: nat :| ComesUp(actions, k) && k < i
                 && forall m :: k < m < i ==> !actions[m].ProcessExits? && !actions[m].CloseMarks?;
      assert ComesUp(actions, k) && k < i + 1;
    }
    if Up(actions, i + 1) && !ComesUp(actions, i) {
      var k: nat :| ComesUp(actions, k) && k < i + 1
                 && forall m :: k < m < i + 1 ==> !actions[m].ProcessExits? && !actions[m].CloseMarks?;
      assert k < i;
    }
  }

  lemma ClosedGrows(actions: seq<Action>, i: nat)
    requires i < |actions|
    ensures Closed(actions, i + 1) <==> Closed(actions, i) || actions[i].CloseMarks?
  {
  }

  lemma {:induction false} ReaderTraced(states: seq<System>, actions: seq<Action>, c: Cause, i: nat)
    requires Traced(states, actions, c) && i < |states|
    ensures states[i].outcome == Returned(actions[..i]) && FirstReported(states[i]) == FirstPort(actions[..i])
  {
    if i > 0 {
      var front, a := actions[..i - 1], actions[i - 1];
      ReaderTraced(states, actions, c, i - 1);
      assert ReaderMoves(states[i - 1], a, states[i]);
      assert actions[..i] == front + [a];
      FirstPortGrows(front, a);
      ReturnedGrows(front, a);
    }
  }

  lemma {:induction false} StartingTraced(states: seq<System>, actions: seq<Action>, c: Cause, i: nat)
    requires Traced(states, actions, c) && i < |states|
    ensures states[i].fields.status.Starting? <==> Untouched(actions, i)
  {
    if i > 0 {
      StartingTraced(states, actions, c, i - 1);
      assert StatusMoves(states[i - 1], actions[i - 1], states[i]);
    }
  }

  lemma RunningMovesByHistory(states: seq<System>, actions: seq<Action>, c: Cause, k: nat)
    requires Traced(states, actions, c) && k < |actions|
    ensures states[k + 1].fields.status.Running? <==>
            || ComesUp(actions, k)
            || (states[k].fields.status.Running? && !actions[k].ProcessExits? && !actions[k].CloseMarks?)
  {
    StartingTraced(states, actions, c, k);
    ReaderTraced(states, actions, c, k);
    assert StatusMoves(states[k], actions[k], states[k + 1]);
  }

  lemma {:induction false} RunningTraced(states: seq<System>, actions: seq<Action>, c: Cause, i: nat)
    requires Traced(states, actions, c) && i < |states|
    ensures states[i].fields.status.Running? <==> Up(actions, i)
  {
    if i > 0 {
      RunningTraced(states, actions, c, i - 1);
      RunningMovesByHistory(states, actions, c, i - 1);
      UpGrows(actions, i - 1);
    }
  }

  lemma {:induction false} StoppedTraced(states: seq<System>, actions: seq<Action>, c: Cause, i: nat)
    requires Traced(states, actions, c) && i < |states|
    ensures states[i].fields.status.Stopped? <==> Closed(actions, i)
  {
    if i > 0 {
      StoppedTraced(states, actions, c, i - 1);
      assert StatusMoves(states[i - 1], actions[i - 1], states[i]);
      ClosedGrows(actions, i - 1);
    }
  }

  // The k-th step records c if and only if the actions say so.
  lemma CauseMovesByHistory(states: seq<System>, actions: seq<Action>, c: Cause, k: nat)
    requires Traced(states, actions, c) && k < |actions|
    ensures states[k + 1].fields.err == Some(c) <==> states[k].fields.err == Some(c) || Records(actions, k, c)
  {
    StartingTraced(states, actions, c, k);
    RunningTraced(states, actions, c, k);
    ReaderTraced(states, actions, c, k);
    assert CauseMoves(states[k], actions[k], states[k + 1], c);
  }

  lemma {:induction false} CauseTraced(states: seq<System>, actions: seq<Action>, c: Cause, i: nat)
    requires Traced(states, actions, c) && i < |states|
    ensures states[i].fields.err == Some(c) <==> exists k :: 0 <= k < i && Records(actions, k, c)
  {
    if i > 0 {
      var last := i - 1;
      CauseTraced(states, actions, c, last);
      CauseMovesByHistory(states, actions, c, last);
      if Records(actions, last, c) {
        assert 0 <= last < i;
      }
    }
  }

  // At k the port is reported while nothing has ended the starting phase.
  ghost predicate Asks(actions: seq<Action>, k: nat, port: int) {
    k < |actions| && actions[k] == PortFound(port) && Untouched(actions, k)
  }

  lemma {:induction false} AskTraced(states: seq<System>, actions: seq<Action>, c: Cause, i: nat, port: int)
    requires Traced(states, actions, c) && i < |states|
    ensures states[i].asked == Some(port) <==> exists k :: 0 <= k < i && Asks(actions, k, port)
  {
    if i > 0 {
      var last := i - 1;
      AskTraced(states, actions, c, last, port);
      StartingTraced(states, actions, c, last);
      assert AskMoves(states[last], actions[last], states[i]);
      if Asks(actions, last, port) {
        assert 0 <= last < i;
      }
    }
  }

  // PortReady is asked for a port exactly when that is reported while the instance is starting.
  lemma AskedByHistory(states: seq<System>, actions: seq<Action>, i: nat, port: int)
    requires IsRun(states, actions) && i < |states|
    ensures states[i].asked == Some(port) <==>
            exists k :: 0 <= k < i && actions[k] == PortFound(port) && Untouched(actions, k)
  {
    RunIsTraced(states, actions, TimedOut);
    AskTraced(states, actions, TimedOut, i, port);
    if k :| 0 <= k < i && actions[k] == PortFound(port) && Untouched(actions, k) {
      assert Asks(actions, k, port);
    }
  }

  // The status says what has happened. Starting: nothing yet. Running: a port was committed while
  // starting, and since then the process has not exited and nobody has called close. Stopped:
  // somebody has called close. Failed: the rest.
  lemma StatusByHistory(states: seq<System>, actions: seq<Action>, i: nat)
    requires IsRun(states, actions) && i < |states|
    ensures states[i].fields.status.Starting? <==> Untouched(actions, i)
    ensures states[i].fields.status.Running? <==> Up(actions, i)
    ensures states[i].fields.status.Stopped? <==> Closed(actions, i)
  {
    RunIsTraced(states, actions, TimedOut);
    StartingTraced(states, actions, TimedOut, i);
    RunningTraced(states, actions, TimedOut, i);
    StoppedTraced(states, actions, TimedOut, i);
  }

  // The error says what made the instance fail, and stays the one recorded first.
  lemma CauseByHistory(states: seq<System>, actions: seq<Action>, i: nat, c: Cause)
    requires IsRun(states, actions) && i < |states|
    ensures states[i].fields.err == Some(c) <==> exists k :: 0 <= k < i && Records(actions, k, c)
  {
    RunIsTraced(states, actions, c);
    CauseTraced(states, actions, c, i);
  }
}
