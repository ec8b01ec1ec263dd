/** Concurrent polls of one notification snapshot (internal/notify/notify.go). */
module NotifyProtocol {
  import opened Prelude
  import EventLog
  import opened NotifyReports
  import opened NotifyStore
  import Runs

  // Every call of an observer has its own number.
  type Pid = nat

  // Where one call stands. Holding to Saved happens under the file lock. index is its place among the polls.
  datatype Phase =
    | Waiting(batch: seq<Session>)
    | Holding(batch: seq<Session>)
    | Compared(batch: seq<Session>, events: seq<Event>)
    | Saved(index: nat, events: seq<Event>)
    | Answered(index: nat, events: seq<Event>)
    | Refused
    | Crashed

  datatype System = System(
    file: Snapshot,
    holder: Option<Pid>,
    phases: map<Pid, Phase>,
    // history
    initial: Snapshot,
    polls: seq<Poll>)

  datatype Action =
    | Calls(p: Pid, batch: seq<Session>)
    | FailsBeforeLock(p: Pid)
    | Locks(p: Pid)
    | Compares(p: Pid)
    | Renames(p: Pid)
    | SaveFails(p: Pid)
    | Unlocks(p: Pid)
    | Crashes(p: Pid)

  function Start(initial: Snapshot): System {
    System(initial, None, map[], initial, [])
  }

  predicate UnderLock(ph: Phase) {
    ph.Holding? || ph.Compared? || ph.Saved?
  }

  predicate Over(ph: Phase) {
    ph.Answered? || ph.Refused? || ph.Crashed?
  }

  function Move(s: System, p: Pid, ph: Phase): System {
    s.(phases := s.phases[p := ph])
  }

  function Leave(s: System, p: Pid, ph: Phase): System {
    Move(s, p, ph).(holder := None)
  }

  function Step(s: System, a: Action): Option<System> {
    if a.Calls? then
      if a.p in s.phases then None else Some(Move(s, a.p, Waiting(a.batch)))
    else if a.p !in s.phases then None
    else
      var p, ph := a.p, s.phases[a.p];
      match a
      case FailsBeforeLock(_) => if ph.Waiting? then Some(Move(s, p, Refused)) else None
      case Locks(_) =>
        if ph.Waiting? && s.holder.None? then Some(Move(s, p, Holding(ph.batch)).(holder := Some(p))) else None
      case Compares(_) =>
        if ph.Holding? then Some(Move(s, p, Compared(ph.batch, EventsOf(s.file, ph.batch)))) else None
      case Renames(_) =>
        if ph.Compared?
        then Some(Move(s, p, Saved(|s.polls|, ph.events)).(file := States(ph.batch),
                                                           polls := s.polls + [Poll(p, ph.batch, true)]))
        else None
      case SaveFails(_) =>
        // The events are answered although the snapshot stays as it was.
        if ph.Compared?
        then Some(Leave(s, p, Answered(|s.polls|, ph.events)).(polls := s.polls + [Poll(p, ph.batch, false)]))
        else None
      case Unlocks(_) => if ph.Saved? then Some(Leave(s, p, Answered(ph.index, ph.events))) else None
      case Crashes(_) =>
        // The system drops a dead process's lock.
        if Over(ph) then None
        else Some(if UnderLock(ph) then Leave(s, p, Crashed) else Move(s, p, Crashed))
  }

  ghost predicate LockInv(s: System) {
    && (forall p :: p in s.phases ==> (UnderLock(s.phases[p]) <==> s.holder == Some(p)))
    && (s.holder.Some? ==> s.holder.value in s.phases)
  }

  // Every poll belongs to one call, and every call to at most one poll.
  ghost predicate PollInv(s: System) {
    && (forall k :: 0 <= k < |s.polls| ==> s.polls[k].observer in s.phases)
    && (forall k :: 0 <= k < |s.polls| ==>
          var ph := s.phases[s.polls[k].observer];
          (ph.Saved? && ph.index == k) || (ph.Answered? && ph.index == k) || ph.Crashed?)
    && (forall j, k :: 0 <= j < k < |s.polls| ==> s.polls[j].observer != s.polls[k].observer)
  }

  // What a call has computed fits the snapshot it will replace, what it answers fits its place in the order.
  ghost predicate Fitting(s: System, p: Pid)
    requires p in s.phases
  {
    match s.phases[p]
    case Compared(batch, events) => events == EventsOf(s.file, batch)
    case Saved(k, events) => k < |s.polls| && s.polls[k].observer == p && events == PollEvents(s.initial, s.polls, k)
    case Answered(k, events) => k < |s.polls| && s.polls[k].observer == p && events == PollEvents(s.initial, s.polls, k)
    case _ => true
  }

  ghost predicate DataInv(s: System) {
    && s.file == Stored(s.initial, s.polls)
    && (forall p :: p in s.phases ==> Fitting(s, p))
  }

  ghost predicate Inv(s: System) {
    LockInv(s) && PollInv(s) && DataInv(s)
  }

  lemma StepKeepsLockInv(s: System, a: Action)
    requires LockInv(s) && Step(s, a).Some?
    ensures LockInv(Step(s, a).value)
  {
  }

  lemma PollStepKeepsPollInv(s: System, a: Action)
    requires Inv(s) && Step(s, a).Some? && (a.Renames? || a.SaveFails?)
    ensures PollInv(Step(s, a).value)
  {
    assert s.phases[a.p].Compared?;
  }

  lemma OtherStepKeepsPollInv(s: System, a: Action)
    requires Inv(s) && Step(s, a).Some? && !a.Renames? && !a.SaveFails?
    ensures PollInv(Step(s, a).value)
  {
    assert Step(s, a).value.polls == s.polls;
    if !a.Calls? {
      assert Fitting(s, a.p);
    }
  }

  // More polls do not change what an earlier one has answered.
  lemma LaterPollsKeepEvents(initial: Snapshot, polls: seq<Poll>, q: Poll, k: nat)
    requires k < |polls|
    ensures PollEvents(initial, polls + [q], k) == PollEvents(initial, polls, k)
  {
    assert (polls + [q])[..k] == polls[..k];
  }

  // The newest poll: what it answers and what it leaves behind.
  lemma NewestPoll(initial: Snapshot, polls: seq<Poll>, q: Poll)
    ensures PollEvents(initial, polls + [q], |polls|) == EventsOf(Stored(initial, polls), q.batch)
    ensures Stored(initial, polls + [q]) == if q.saved then States(q.batch) else Stored(initial, polls)
  {
    FrontOfAppended(polls, q);
  }

  // What a poll adds to the history, and what it leaves behind.
  lemma PollStepMoves(s: System, a: Action)
    requires Inv(s) && Step(s, a).Some? && (a.Renames? || a.SaveFails?)
    ensures var t, q := Step(s, a).value, Poll(a.p, s.phases[a.p].batch, a.Renames?);
      && s.phases[a.p].Compared? && s.holder == Some(a.p)
      && t.polls == s.polls + [q] && t.initial == s.initial && t.phases.Keys == s.phases.Keys
      && t.file == (if q.saved then States(q.batch) else s.file)
      && t.phases[a.p] == (if q.saved then Saved(|s.polls|, s.phases[a.p].events)
                           else Answered(|s.polls|, s.phases[a.p].events))
      && forall p :: p in s.phases && p != a.p ==> t.phases[p] == s.phases[p]
  {
  }

  lemma PollerFits(s: System, a: Action)
    requires Inv(s) && Step(s, a).Some? && (a.Renames? || a.SaveFails?)
    ensures Fitting(Step(s, a).value, a.p)
  {
    PollStepMoves(s, a);
    assert Fitting(s, a.p);
    NewestPoll(s.initial, s.polls, Poll(a.p, s.phases[a.p].batch, a.Renames?));
  }

  lemma OtherStaysFitting(s: System, t: System, q: Poll, p: Pid)
    requires p in s.phases && p in t.phases && t.phases[p] == s.phases[p] && !UnderLock(s.phases[p])
    requires t.polls == s.polls + [q] && t.initial == s.initial && Fitting(s, p)
    ensures Fitting(t, p)
  {
    if s.phases[p].Answered? {
      LaterPollsKeepEvents(s.initial, s.polls, q, s.phases[p].index);
    }
  }

  lemma PollStepKeepsDataInv(s: System, a: Action)
    requires Inv(s) && Step(s, a).Some? && (a.Renames? || a.SaveFails?)
    ensures DataInv(Step(s, a).value)
  {
    var t, q := Step(s, a).value, Poll(a.p, s.phases[a.p].batch, a.Renames?);
    PollStepMoves(s, a);
    PollerFits(s, a);
    NewestPoll(s.initial, s.polls, q);
    forall p | p in t.phases ensures Fitting(t, p) {
      if p != a.p {
        assert Fitting(s, p);
        OtherStaysFitting(s, t, q, p);
      }
    }
  }

  lemma MoverStaysFitting(s: System, a: Action)
    requires Inv(s) && Step(s, a).Some? && !a.Renames? && !a.SaveFails?
    ensures Fitting(Step(s, a).value, a.p)
  {
    if !a.Calls? {
      assert Fitting(s, a.p);
    }
  }

  lemma OtherStepKeepsDataInv(s: System, a: Action)
    requires Inv(s) && Step(s, a).Some? && !a.Renames? && !a.SaveFails?
    ensures DataInv(Step(s, a).value)
  {
    var t := Step(s, a).value;
    MoverStaysFitting(s, a);
    assert t.polls == s.polls && t.initial == s.initial && t.file == s.file;
    forall p | p in t.phases ensures Fitting(t, p) {
      if p != a.p {
        assert t.phases[p] == s.phases[p] && Fitting(s, p);
      }
    }
  }

  lemma {:induction false} StepKeepsInv(s: System, a: Action)
    requires Inv(s) && Step(s, a).Some?
    ensures Inv(Step(s, a).value)
  {
    StepKeepsLockInv(s, a);
    if a.Renames? || a.SaveFails? {
      PollStepKeepsPollInv(s, a);
      PollStepKeepsDataInv(s, a);
    } else {
      OtherStepKeepsPollInv(s, a);
      OtherStepKeepsDataInv(s, a);
    }
  }

  ghost predicate IsRun(states: seq<System>, actions: seq<Action>) {
    Runs.IsRun((s: System) => s == Start(s.initial), Step, states, actions)
  }

  lemma RunKeepsInv(states: seq<System>, actions: seq<Action>, i: nat)
    requires IsRun(states, actions) && i < |states|
    ensures Inv(states[i])
  {
    forall s, a | Inv(s) && Step(s, a).Some? ensures Inv(Step(s, a).value) {
      StepKeepsInv(s, a);
    }
    Runs.InvariantHolds((s: System) => s == Start(s.initial), Step, s => Inv(s), states, actions, i);
  }

  // However the calls interleave, they take effect one after another: the stored snapshot is what
  // the polls in lock order leave behind, and a call answers exactly the events of its place in that order.
  lemma PollsAreSerialized(states: seq<System>, actions: seq<Action>, i: nat, p: Pid)
    requires IsRun(states, actions) && i < |states| && p in states[i].phases && states[i].phases[p].Answered?
    ensures var s, ph := states[i], states[i].phases[p];
      && s.file == Stored(s.initial, s.polls)
      && ph.index < |s.polls| && s.polls[ph.index].observer == p
      && ph.events == PollEvents(s.initial, s.polls, ph.index)
  {
    RunKeepsInv(states, actions, i);
    assert Fitting(states[i], p);
  }

  // No transition is answered to two calls, and only a crash can swallow one: every poll that took
  // effect is that of a single call, which has answered, is about to, or has died.
  lemma EachPollIsAnsweredOnce(states: seq<System>, actions: seq<Action>, i: nat, k: nat)
    requires IsRun(states, actions) && i < |states| && k < |states[i].polls|
    ensures var s := states[i];
      var p := s.polls[k].observer;
      && p in s.phases
      && (s.phases[p].Crashed? || ((s.phases[p].Answered? || s.phases[p].Saved?) && s.phases[p].index == k))
      && (forall q :: q in s.phases && s.phases[q].Answered? && s.phases[q].index == k ==> q == p)
  {
    RunKeepsInv(states, actions, i);
    var s := states[i];
    forall q | q in s.phases && s.phases[q].Answered? && s.phases[q].index == k ensures q == s.polls[k].observer {
      assert Fitting(s, q);
    }
  }

  // The batch that a call was made with.
  function BatchOf(actions: seq<Action>, p: Pid): seq<Session> {
    if actions == [] then []
    else
      var last := actions[|actions| - 1];
      if last.Calls? && last.p == p then last.batch else BatchOf(actions[..|actions| - 1], p)
  }

  // The polls that took effect: those that came to write the snapshot, with the batches of their calls.
  function PollsOf(actions: seq<Action>): seq<Poll> {
    if actions == [] then []
    else
      var front, last := actions[..|actions| - 1], actions[|actions| - 1];
      if last.Renames? || last.SaveFails?
      then PollsOf(front) + [Poll(last.p, BatchOf(front, last.p), last.Renames?)]
      else PollsOf(front)
  }

  // A call that has not written yet still has the batch it was made with.
  predicate Carries(ph: Phase, batch: seq<Session>) {
    match ph
    case Waiting(b) => b == batch
    case Holding(b) => b == batch
    case Compared(b, _) => b == batch
    case _ => true
  }

  ghost predicate BatchesKnown(s: System, actions: seq<Action>) {
    forall p :: p in s.phases ==> Carries(s.phases[p], BatchOf(actions, p))
  }

  lemma BatchStep(actions: seq<Action>, a: Action, p: Pid)
    ensures BatchOf(actions + [a], p) == if a.Calls? && a.p == p then a.batch else BatchOf(actions, p)
    ensures PollsOf(actions + [a]) ==
            PollsOf(actions) + if a.Renames? || a.SaveFails? then [Poll(a.p, BatchOf(actions, a.p), a.Renames?)] else []
  {
    FrontOfAppended(actions, a);
  }

  lemma StepCarries(s: System, a: Action, p: Pid, batch: seq<Session>)
    requires Step(s, a).Some? && p in Step(s, a).value.phases
    requires p in s.phases ==> Carries(s.phases[p], batch)
    requires p in s.phases || (a.Calls? && a.p == p)
    ensures Carries(Step(s, a).value.phases[p], if a.Calls? && a.p == p then a.batch else batch)
  {
  }

  lemma StepAddsCaller(s: System, a: Action, p: Pid)
    requires Step(s, a).Some? && p in Step(s, a).value.phases
    ensures p in s.phases || (a.Calls? && a.p == p)
  {
  }

  lemma StepKeepsBatches(s: System, actions: seq<Action>, a: Action)
    requires BatchesKnown(s, actions) && Step(s, a).Some?
    ensures BatchesKnown(Step(s, a).value, actions + [a])
  {
    var t := Step(s, a).value;
    forall p | p in t.phases ensures Carries(t.phases[p], BatchOf(actions + [a], p)) {
      StepAddsCaller(s, a, p);
      StepCarries(s, a, p, BatchOf(actions, p));
      BatchStep(actions, a, p);
    }
  }

  // The polls of a run are the calls that came to write, in that order and with their own batches; a
  // poll counts as saved when it replaced the file.
  lemma {:induction false} PollsFollowCalls(states: seq<System>, actions: seq<Action>, i: nat)
    requires IsRun(states, actions) && i < |states|
    ensures states[i].polls == PollsOf(actions[..i]) && BatchesKnown(states[i], actions[..i])
  {
    if i > 0 {
      PollsFollowCalls(states, actions, i - 1);
      var s, a := states[i - 1], actions[i - 1];
      assert Step(s, a) == Some(states[i]);
      assert actions[..i] == actions[..i - 1] + [a];
      StepKeepsBatches(s, actions[..i - 1], a);
      BatchStep(actions[..i - 1], a, 0);
    }
  }

  // An answer holds one event for a session exactly when the last saved poll before it, whoever made
  // it, saw the session in another state and it is now done or has a question, and none otherwise.
  lemma AnswersReportTransitions(states: seq<System>, actions: seq<Action>, i: nat, p: Pid, l: int, id: string)
    requires IsRun(states, actions) && i < |states| && p in states[i].phases && states[i].phases[p].Answered?
    requires states[i].phases[p].index < |states[i].polls|
    requires var s, k := states[i], states[i].phases[p].index;
             LastSavedBefore(s.polls, k, l) && AgreesOn(s.polls[k].batch, id)
    ensures var s, k := states[i], states[i].phases[p].index;
      CountFor(s.phases[p].events, id)
          == if Transition(SavedAt(s.initial, s.polls, l), s.polls[k].batch, id) then 1 else 0
    ensures var s, k := states[i], states[i].phases[p].index;
      var now := LastReport(s.polls[k].batch, id);
      CountFor(s.phases[p].events, id)
          == if && Knew(s.initial, s.polls, l, id)
                && (|| (now == Some(EventLog.Waiting) && !HadQuestion(s.initial, s.polls, l, id))
                    || (now == Some(EventLog.Done) && !WasDone(s.initial, s.polls, l, id)))
             then 1 else 0
  {
    var s, k := states[i], states[i].phases[p].index;
    PollsAreSerialized(states, actions, i, p);
    PollsFireOnTransitions(s.initial, s.polls, k, l, id);
    ConsistentMeansAgreement(s.polls[k].batch, id);
    PollNotifiesIff(s.initial, s.polls, k, l, id);
  }

  // Every event of an answer tells of an entry of that call's own batch.
  lemma AnswersTellOfEntries(states: seq<System>, actions: seq<Action>, i: nat, p: Pid) returns (at: seq<nat>)
    requires IsRun(states, actions) && i < |states| && p in states[i].phases && states[i].phases[p].Answered?
    requires states[i].phases[p].index < |states[i].polls|
    ensures TellInOrder(states[i].phases[p].events, states[i].polls[states[i].phases[p].index].batch, at)
  {
    var s, k := states[i], states[i].phases[p].index;
    PollsAreSerialized(states, actions, i, p);
    at := EventsTellOfEntries(Stored(s.initial, s.polls[..k]), s.polls[k].batch);
  }
}
