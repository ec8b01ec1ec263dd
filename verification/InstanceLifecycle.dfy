/** One code-server instance under every interleaving of its goroutines (internal/codeserver/registry.go). */
module InstanceLifecycle {
  import opened Prelude
  import Runs

  datatype Status = Starting | Running | Failed | Stopped

  datatype Cause = ResolveFailed(port: int) | TimedOut | Exited(clean: bool)

  // Function values (dial and teardown callbacks) are known by handle only.
  type Handle = nat

  // What PortReady returned: an optional dial, an optional teardown and whether it reported an error.
  datatype Outcome = Outcome(dial: Option<Handle>, teardown: Option<Handle>, failed: bool)

  // The fields guarded by the instance's mutex.
  datatype Fields = Fields(status: Status, port: int, err: Option<Cause>, dial: Option<Handle>,
                           dialTeardown: Option<Handle>)

  const LAUNCHED := Fields(Starting, 0, None, None, None)

  predicate Active(f: Fields) {
    f.status.Starting? || f.status.Running?
  }

  // The critical sections, one function each.

  function Commit(f: Fields, port: int, o: Outcome): Fields {
    if !f.status.Starting? then f
    else if o.failed then f.(status := Failed, err := Some(ResolveFailed(port)))
    else f.(status := Running, port := port, dial := o.dial, dialTeardown := o.teardown)
  }

  // The teardown the reader runs itself because it lost the race.
  function Undo(f: Fields, o: Outcome): Option<Handle> {
    if f.status.Starting? then None else o.teardown
  }

  function TimeOut(f: Fields): Fields {
    if f.status.Starting? then f.(status := Failed, err := Some(TimedOut)) else f
  }

  function ProcessExit(f: Fields, clean: bool): Fields {
    if Active(f) then f.(status := Failed, err := Some(Exited(clean))) else f
  }

  function MarkStopped(f: Fields): Fields {
    f.(status := Stopped)
  }

  class Instance {
    var status: Status
    var port: int
    var err: Option<Cause>
    var dial: Option<Handle>
    var dialTeardown: Option<Handle>

    function View(): Fields
      reads this
    {
      Fields(status, port, err, dial, dialTeardown)
    }

    constructor ()
      ensures View() == LAUNCHED
    {
      status, port, err, dial, dialTeardown := Starting, 0, None, None, None;
    }

    method IsActive() returns (active: bool)
      ensures active <==> status.Starting? || status.Running?
    {
      active := status == Starting || status == Running;
    }

    // First critical section of onPortFound: is PortReady to be called?
    method PortWanted() returns (wanted: bool)
      ensures wanted <==> View().status.Starting?
    {
      wanted := status == Starting;
    }

    // Second critical section of onPortFound, once PortReady has returned.
    method CommitPort(p: int, o: Outcome) returns (undo: Option<Handle>)
      modifies this
      ensures View() == Commit(old(View()), p, o)
      ensures undo == Undo(old(View()), o)
    {
      if status != Starting {
        return o.teardown;
      }
      undo := None;
      if o.failed {
        status := Failed;
        err := Some(ResolveFailed(p));
        return;
      }
      port := p;
      dial := o.dial;
      dialTeardown := o.teardown;
      status := Running;
    }

    method OnStartTimeout() returns (kill: bool)
      modifies this
      ensures View() == TimeOut(old(View()))
      ensures kill <==> old(View()).status.Starting?
    {
      if status != Starting {
        return false;
      }
      status := Failed;
      err := Some(TimedOut);
      kill := true;
    }

    method OnProcessExit(clean: bool)
      modifies this
      ensures View() == ProcessExit(old(View()), clean)
    {
      if status == Starting || status == Running {
        status := Failed;
        err := Some(Exited(clean));
      }
    }

    // The critical section of close; only the first closer goes on to kill and tear down.
    method BeginClose() returns (first: bool, kill: bool, teardown: Option<Handle>)
      modifies this
      ensures View() == MarkStopped(old(View()))
      ensures first <==> !old(View()).status.Stopped?
      ensures kill <==> old(status).Starting? || old(status).Running?
      ensures teardown == if first then old(View()).dialTeardown else None
    {
      if status == Stopped {
        return false, false, None;
      }
      kill := status == Starting || status == Running;
      status := Stopped;
      first, teardown := true, dialTeardown;
    }

    // Dial hands out a connection exactly while the instance runs with a dial function.
    method Dial() returns (d: Option<Handle>)
      ensures d == if View().status.Running? then View().dial else None
    {
      d := if status != Running || dial == None then None else dial;
    }
  }

  // The output-reading goroutine.
  datatype Reader = Scanning | Resolving(port: int) | Resolved(port: int, outcome: Outcome) | Ended

  // One call of close.
  datatype Closer = Entered | TearingDown(dialTeardown: Option<Handle>) | TearingSpec | Finished

  datatype System = System(
    fields: Fields,
    reader: Reader,
    exited: bool,
    closers: map<nat, Closer>,
    hasSpecTeardown: bool,
    // history
    reported: seq<int>,
    portCalls: nat,
    asked: Option<int>,
    outcome: Option<Outcome>,
    errWrites: nat,
    winner: Option<nat>,
    torn: multiset<Handle>,
    specTorn: nat)

  datatype Action =
    | PortFound(port: int)
    | PortReadyReturns(result: Outcome)
    | PortCommitted
    | ReaderEnds
    | StartTimeoutFires
    | ProcessExits(clean: bool)
    | CloseCalled(id: nat)
    | CloseMarks(id: nat)
    | CloseRunsDialTeardown(id: nat)
    | CloseRunsSpecTeardown(id: nat)

  function Launch(hasSpecTeardown: bool): System {
    System(LAUNCHED, Scanning, false, map[], hasSpecTeardown, [], 0, None, None, 0, None, multiset{}, 0)
  }

  function Bag(h: Option<Handle>): multiset<Handle> {
    match h case None => multiset{} case Some(x) => multiset{x}
  }

  // One atomic step; None when the action is not possible.
  function Step(s: System, a: Action): Option<System> {
    var f := s.fields;
    match a
    case PortFound(p) =>
      if !s.reader.Scanning? then None
      else if !f.status.Starting? then Some(s.(reported := s.reported + [p]))
      else Some(s.(reader := Resolving(p), reported := s.reported + [p],
                   portCalls := s.portCalls + 1, asked := Some(p)))
    case PortReadyReturns(o) =>
      if !s.reader.Resolving? then None
      else Some(s.(reader := Resolved(s.reader.port, o), outcome := Some(o)))
    case PortCommitted =>
      if !s.reader.Resolved? then None
      else Some(s.(reader := Scanning,
                   fields := Commit(f, s.reader.port, s.reader.outcome),
                   errWrites := s.errWrites + (if f.status.Starting? && s.reader.outcome.failed then 1 else 0),
                   torn := s.torn + Bag(Undo(f, s.reader.outcome))))
    case ReaderEnds =>
      if !s.reader.Scanning? then None else Some(s.(reader := Ended))
    case StartTimeoutFires =>
      Some(s.(fields := TimeOut(f), errWrites := s.errWrites + (if f.status.Starting? then 1 else 0)))
    case ProcessExits(clean) =>
      if s.exited then None
      else Some(s.(exited := true, fields := ProcessExit(f, clean),
                   errWrites := s.errWrites + (if Active(f) then 1 else 0)))
    case CloseCalled(id) =>
      if id in s.closers then None else Some(s.(closers := s.closers[id := Entered]))
    case CloseMarks(id) =>
      if id !in s.closers || !s.closers[id].Entered? then None
      else if f.status.Stopped? then Some(s.(closers := s.closers[id := Finished]))
      else Some(s.(fields := MarkStopped(f), winner := Some(id),
                   closers := s.closers[id := TearingDown(f.dialTeardown)]))
    case CloseRunsDialTeardown(id) =>
      if id !in s.closers || !s.closers[id].TearingDown? then None
      else Some(s.(closers := s.closers[id := TearingSpec], torn := s.torn + Bag(s.closers[id].dialTeardown)))
    case CloseRunsSpecTeardown(id) =>
      if id !in s.closers || !s.closers[id].TearingSpec? then None
      else Some(s.(closers := s.closers[id := Finished],
                   specTorn := s.specTorn + (if s.hasSpecTeardown then 1 else 0)))
  }

  predicate IsLaunch(s: System) {
    s == Launch(s.hasSpecTeardown)
  }

  ghost predicate IsRun(states: seq<System>, actions: seq<Action>) {
    Runs.IsRun(IsLaunch, Step, states, actions)
  }

  predicate ReaderIdle(s: System) {
    s.reader.Scanning? || s.reader.Ended?
  }

  predicate LostTeardown(f: Fields) {
    f.err.Some? && f.err.value.ResolveFailed?
  }

  // Has the winning closer already run the teardown it captured?
  predicate WinnerRanDialTeardown(s: System) {
    s.winner.Some? && s.winner.value in s.closers
    && (s.closers[s.winner.value].TearingSpec? || s.closers[s.winner.value].Finished?)
  }

  // PortReady is asked for the first port that the reader reports, or for none.
  ghost predicate ReportInv(s: System) {
    && (s.asked.Some? ==> s.reported != [] && s.asked.value == s.reported[0])
    && (s.fields.status.Starting? && ReaderIdle(s) ==> s.reported == [])
  }

  ghost predicate ReaderInv(s: System) {
    && (match s.reader
        case Resolving(p) => s.portCalls == 1 && s.asked == Some(p) && s.outcome.None?
        case Resolved(p, o) => s.portCalls == 1 && s.asked == Some(p) && s.outcome == Some(o)
        case _ => s.portCalls == (if s.outcome.Some? then 1 else 0) && (s.fields.status.Starting? ==> s.outcome.None?))
    && (s.fields.status.Running? ==>
          && ReaderIdle(s) && s.outcome.Some? && !s.outcome.value.failed
          && s.asked == Some(s.fields.port) && s.fields.dial == s.outcome.value.dial)
  }

  ghost predicate ErrorInv(s: System) {
    && s.errWrites == (if s.fields.err.Some? then 1 else 0)
    && (Active(s.fields) ==> s.fields.err.None?)
    && (s.fields.status.Failed? ==> s.fields.err.Some?)
    && (LostTeardown(s.fields) ==>
          ReaderIdle(s) && s.outcome.Some? && s.outcome.value.failed && s.asked == Some(s.fields.err.value.port))
  }

  ghost predicate CloserInv(s: System) {
    && (s.winner.Some? <==> s.fields.status.Stopped?)
    && (s.winner.Some? ==> s.winner.value in s.closers && !s.closers[s.winner.value].Entered?)
    && (forall i :: i in s.closers && s.winner != Some(i) ==>
          s.closers[i].Entered? || (s.closers[i].Finished? && s.winner.Some?))
    && s.specTorn == (if s.hasSpecTeardown && s.winner.Some? && s.closers[s.winner.value].Finished? then 1 else 0)
    && (s.winner.Some? && s.closers[s.winner.value].TearingDown? ==>
          s.closers[s.winner.value].dialTeardown == s.fields.dialTeardown)
  }

  // Where the teardown handed over by PortReady currently is.
  ghost predicate TeardownInv(s: System) {
    if !ReaderIdle(s) || s.outcome.None? then
      s.torn == multiset{} && s.fields.dialTeardown.None?
    else if LostTeardown(s.fields) || s.outcome.value.teardown.None? then
      s.torn == multiset{} && s.fields.dialTeardown.None?
    else if s.fields.dialTeardown.None? then
      s.torn == Bag(s.outcome.value.teardown)
    else
      s.fields.dialTeardown == s.outcome.value.teardown
      && s.torn == if WinnerRanDialTeardown(s) then Bag(s.outcome.value.teardown) else multiset{}
  }

  ghost predicate Inv(s: System) {
    ReportInv(s) && ReaderInv(s) && ErrorInv(s) && CloserInv(s) && TeardownInv(s)
  }

  lemma PortIgnoredKeepsInv(s: System, p: int)
    requires Inv(s) && s.reader.Scanning? && !s.fields.status.Starting?
    ensures Inv(s.(reported := s.reported + [p]))
  {
    assert WinnerRanDialTeardown(s.(reported := s.reported + [p])) <==> WinnerRanDialTeardown(s);
  }

  lemma PortAskedKeepsInv(s: System, p: int)
    requires Inv(s) && s.reader.Scanning? && s.fields.status.Starting?
    ensures Inv(Step(s, PortFound(p)).value)
  {
    var t := Step(s, PortFound(p)).value;
    assert s.reported == [] && t.reported[0] == p;
    assert WinnerRanDialTeardown(t) <==> WinnerRanDialTeardown(s);
  }

  lemma PortFoundKeepsInv(s: System, p: int)
    requires Inv(s) && Step(s, PortFound(p)).Some?
    ensures Inv(Step(s, PortFound(p)).value)
  {
    if s.fields.status.Starting? {
      PortAskedKeepsInv(s, p);
    } else {
      PortIgnoredKeepsInv(s, p);
    }
  }

  lemma PortReadyReturnsKeepsInv(s: System, o: Outcome)
    requires Inv(s) && Step(s, PortReadyReturns(o)).Some?
    ensures Inv(Step(s, PortReadyReturns(o)).value)
  {
    assert WinnerRanDialTeardown(Step(s, PortReadyReturns(o)).value) <==> WinnerRanDialTeardown(s);
  }

  lemma PortCommittedKeepsInv(s: System)
    requires Inv(s) && Step(s, PortCommitted).Some?
    ensures Inv(Step(s, PortCommitted).value)
  {
    assert WinnerRanDialTeardown(Step(s, PortCommitted).value) <==> WinnerRanDialTeardown(s);
  }

  lemma ReaderEndsKeepsInv(s: System)
    requires Inv(s) && Step(s, ReaderEnds).Some?
    ensures Inv(Step(s, ReaderEnds).value)
  {
    assert WinnerRanDialTeardown(Step(s, ReaderEnds).value) <==> WinnerRanDialTeardown(s);
  }

  lemma ExpiryKeepsInv(s: System, a: Action)
    requires Inv(s) && Step(s, a).Some?
    requires a.StartTimeoutFires? || a.ProcessExits?
    ensures Inv(Step(s, a).value)
  {
    assert WinnerRanDialTeardown(Step(s, a).value) <==> WinnerRanDialTeardown(s);
  }

  lemma CloseCalledKeepsInv(s: System, id: nat)
    requires Inv(s) && Step(s, CloseCalled(id)).Some?
    ensures Inv(Step(s, CloseCalled(id)).value)
  {
    assert WinnerRanDialTeardown(Step(s, CloseCalled(id)).value) <==> WinnerRanDialTeardown(s);
  }

  lemma CloseMarksKeepsInv(s: System, id: nat)
    requires Inv(s) && Step(s, CloseMarks(id)).Some?
    ensures Inv(Step(s, CloseMarks(id)).value)
  {
    var t := Step(s, CloseMarks(id)).value;
    if s.fields.status.Stopped? {
      assert s.winner != Some(id);
      assert WinnerRanDialTeardown(t) <==> WinnerRanDialTeardown(s);
    } else {
      assert !WinnerRanDialTeardown(t) && !WinnerRanDialTeardown(s);
      assert TeardownInv(t);
    }
  }

  lemma CloseRunsDialTeardownKeepsInv(s: System, id: nat)
    requires Inv(s) && Step(s, CloseRunsDialTeardown(id)).Some?
    ensures Inv(Step(s, CloseRunsDialTeardown(id)).value)
  {
    var t := Step(s, CloseRunsDialTeardown(id)).value;
    assert s.winner == Some(id) && t.winner == Some(id);
    assert t.closers[id].TearingSpec? && s.closers[id].dialTeardown == s.fields.dialTeardown;
    assert CloserInv(t) by {
      forall i | i in t.closers && t.winner != Some(i)
        ensures t.closers[i].Entered? || (t.closers[i].Finished? && t.winner.Some?)
      {
        assert t.closers[i] == s.closers[i];
      }
    }
    assert WinnerRanDialTeardown(t) && !WinnerRanDialTeardown(s);
    assert TeardownInv(t);
  }

  lemma CloseRunsSpecTeardownKeepsInv(s: System, id: nat)
    requires Inv(s) && Step(s, CloseRunsSpecTeardown(id)).Some?
    ensures Inv(Step(s, CloseRunsSpecTeardown(id)).value)
  {
    assert s.winner == Some(id);
    assert WinnerRanDialTeardown(s);
  }

  lemma {:induction false} StepKeepsInv(s: System, a: Action)
    requires Inv(s) && Step(s, a).Some?
    ensures Inv(Step(s, a).value)
  {
    match a
    case PortFound(p) => PortFoundKeepsInv(s, p);
    case PortReadyReturns(o) => PortReadyReturnsKeepsInv(s, o);
    case PortCommitted => PortCommittedKeepsInv(s);
    case ReaderEnds => ReaderEndsKeepsInv(s);
    case StartTimeoutFires => ExpiryKeepsInv(s, a);
    case ProcessExits(_) => ExpiryKeepsInv(s, a);
    case CloseCalled(id) => CloseCalledKeepsInv(s, id);
    case CloseMarks(id) => CloseMarksKeepsInv(s, id);
    case CloseRunsDialTeardown(id) => CloseRunsDialTeardownKeepsInv(s, id);
    case CloseRunsSpecTeardown(id) => CloseRunsSpecTeardownKeepsInv(s, id);
  }

  lemma RunKeepsInv(states: seq<System>, actions: seq<Action>, i: nat)
    requires IsRun(states, actions) && i < |states|
    ensures Inv(states[i])
  {
    forall s, a | Inv(s) && Step(s, a).Some? ensures Inv(Step(s, a).value) {
      StepKeepsInv(s, a);
    }
    Runs.InvariantHolds(IsLaunch, Step, s => Inv(s), states, actions, i);
  }

  function Rank(st: Status): nat {
    match st case Starting => 0 case Running => 1 case Failed => 2 case Stopped => 3
  }

  ghost predicate Advances(s: System, t: System) {
    Rank(s.fields.status) <= Rank(t.fields.status) && s.hasSpecTeardown == t.hasSpecTeardown
  }

  lemma StepAdvances(s: System, a: Action)
    requires Step(s, a).Some?
    ensures Advances(s, Step(s, a).value)
  {
  }

  // Along a run the status never moves backward and the presence of Spec.Teardown never changes.
  lemma StatusOnlyAdvances(states: seq<System>, actions: seq<Action>, i: nat, j: nat)
    requires IsRun(states, actions) && i <= j < |states|
    ensures Rank(states[i].fields.status) <= Rank(states[j].fields.status)
    ensures states[i].hasSpecTeardown == states[j].hasSpecTeardown
  {
    forall s, a | Step(s, a).Some? ensures Advances(s, Step(s, a).value) {
      StepAdvances(s, a);
    }
    Runs.LaterIsGreater(IsLaunch, Step, (s, t) => Advances(s, t), states, actions, i, j);
  }

  // In every state of every run each of these has happened at most once.
  lemma AtMostOnce(states: seq<System>, actions: seq<Action>, i: nat)
    requires IsRun(states, actions) && i < |states|
    ensures states[i].portCalls <= 1 && states[i].errWrites <= 1
    ensures states[i].specTorn <= 1 && |states[i].torn| <= 1
  {
    RunKeepsInv(states, actions, i);
  }

  // While it runs, an instance reports the port it asked PortReady for and dials what it got back,
  // and a recorded resolve error is about that very port.
  lemma RunningServesAskedPort(states: seq<System>, actions: seq<Action>, i: nat)
    requires IsRun(states, actions) && i < |states|
    ensures var s := states[i];
      && (s.fields.status.Running? ==>
            s.asked == Some(s.fields.port) && s.outcome.Some? && !s.outcome.value.failed
                && s.fields.dial == s.outcome.value.dial)
      && (s.fields.status.Failed? ==> s.fields.err.Some?)
      && (LostTeardown(s.fields)
        ==> s.asked == Some(s.fields.err.value.port) && s.outcome.Some? && s.outcome.value.failed)
  {
    RunKeepsInv(states, actions, i);
  }

  // The port that PortReady is asked for is the first one the reader reports; a later one never is,
  // and neither is the first if the instance has left starting by then.
  lemma AskedIsFirstReported(states: seq<System>, actions: seq<Action>, i: nat)
    requires IsRun(states, actions) && i < |states| && states[i].asked.Some?
    ensures states[i].reported != [] && states[i].asked.value == states[i].reported[0]
  {
    RunKeepsInv(states, actions, i);
  }

  // Someone has called close and nobody is still inside it.
  ghost predicate CloseDone(s: System) {
    s.closers != map[] && forall i :: i in s.closers ==> s.closers[i].Finished?
  }

  // PortReady has failed and the instance is still starting when the reader comes to commit that.
  predicate FailsInStarting(s: System, a: Action) {
    a.PortCommitted? && s.fields.status.Starting? && s.reader.Resolved? && s.reader.outcome.failed
  }

  lemma StepLosesIff(s: System, a: Action)
    requires Inv(s) && Step(s, a).Some?
    ensures LostTeardown(Step(s, a).value.fields) <==> LostTeardown(s.fields) || FailsInStarting(s, a)
  {
  }

  // A resolve error stands recorded if and only if such a commit has happened.
  lemma {:induction false} LostIffFailedInStarting(states: seq<System>, actions: seq<Action>, i: nat)
    requires IsRun(states, actions) && i < |states|
    ensures LostTeardown(states[i].fields) <==> exists k :: 0 <= k < i && FailsInStarting(states[k], actions[k])
  {
    if i > 0 {
      LostIffFailedInStarting(states, actions, i - 1);
      assert Step(states[i - 1], actions[i - 1]) == Some(states[i]);
      RunKeepsInv(states, actions, i - 1);
      StepLosesIff(states[i - 1], actions[i - 1]);
    }
  }

  // Once close and the reader are done, each teardown has run exactly once. The only teardown
  // that is never run is one that PortReady returned along with an error while starting.
  lemma TeardownsExactlyOnce(states: seq<System>, actions: seq<Action>, i: nat)
    requires IsRun(states, actions) && i < |states|
    requires CloseDone(states[i]) && ReaderIdle(states[i])
    ensures states[i].fields.status.Stopped?
    ensures states[i].specTorn == if states[0].hasSpecTeardown then 1 else 0
    ensures states[i].outcome.None? ==> states[i].torn == multiset{}
    ensures states[i].outcome.Some? && !states[i].outcome.value.failed ==>
              states[i].torn == Bag(states[i].outcome.value.teardown)
    ensures states[i].outcome.Some? && states[i].outcome.value.teardown.Some? ==>
              (states[i].torn == Bag(states[i].outcome.value.teardown)
               <==> forall k :: 0 <= k < i ==> !FailsInStarting(states[k], actions[k]))
  {
    RunKeepsInv(states, actions, i);
    LostIffFailedInStarting(states, actions, i);
    StatusOnlyAdvances(states, actions, 0, i);
    var c :| c in states[i].closers;
    assert states[i].closers[c].Finished?;
    assert states[i].winner.Some? ==> WinnerRanDialTeardown(states[i]);
  }

  // A run that loses a teardown: PortReady fails but still hands one over.

  function LosingActions(p: int, h: Handle): seq<Action> {
    [PortFound(p), PortReadyReturns(Outcome(None, Some(h), true)), PortCommitted,
     CloseCalled(0), CloseMarks(0), CloseRunsDialTeardown(0), CloseRunsSpecTeardown(0)]
  }

  function LosingStates(p: int, h: Handle): seq<System> {
    var o := Outcome(None, Some(h), true);
    var failed := LAUNCHED.(status := Failed, err := Some(ResolveFailed(p)));
    var resolving := Launch(false).(reader := Resolving(p), reported := [p], portCalls := 1, asked := Some(p));
    var idle := Launch(false).(reported := [p], portCalls := 1, asked := Some(p), outcome := Some(o), errWrites := 1,
        fields := failed);
    var closing := idle.(fields := MarkStopped(failed), winner := Some(0));
    [Launch(false), resolving, resolving.(reader := Resolved(p, o), outcome := Some(o)), idle,
     idle.(closers := map[0 := Entered]), closing.(closers := map[0 := TearingDown(None)]),
     closing.(closers := map[0 := TearingSpec]), closing.(closers := map[0 := Finished])]
  }

  lemma LosingStep(p: int, h: Handle, i: nat)
    requires i < 7
    ensures Step(LosingStates(p, h)[i], LosingActions(p, h)[i]) == Some(LosingStates(p, h)[i + 1])
  {
    var no: multiset<Handle> := multiset{};
    assert no + Bag(None) == no;
    assert [] + [p] == [p];
    assert map[0 := Entered][0 := TearingDown(None)] == map[0 := TearingDown(None)];
    assert map[0 := TearingDown(None)][0 := TearingSpec] == map[0 := TearingSpec];
    assert map[0 := TearingSpec][0 := Finished] == map[0 := Finished];
  }

  lemma FailedResolveLosesTeardown(p: int, h: Handle)
    ensures IsRun(LosingStates(p, h), LosingActions(p, h))
    ensures var end := LosingStates(p, h)[7];
      CloseDone(end) && ReaderIdle(end) && end.outcome == Some(Outcome(None, Some(h), true)) && end.torn == multiset{}
  {
    forall i | 0 <= i < 7
      ensures Step(LosingStates(p, h)[i], LosingActions(p, h)[i]) == Some(LosingStates(p, h)[i + 1])
    {
      LosingStep(p, h, i);
    }
    assert 0 in LosingStates(p, h)[7].closers;
  }
}
