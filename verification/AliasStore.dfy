/** The repository alias file under concurrent Set calls (internal/reponames/reponames.go). */
module AliasStore {
  import opened Prelude
  import Runs

  type Aliases = map<string, string>

  // A file is absent, holds bytes that do not decode, or holds an encoded alias map.
  datatype Content = Missing | Malformed | Encoded(aliases: Aliases)

  // One Set request; the key is already normalised.
  datatype Edit = Edit(key: string, alias: string)

  // loadFromPath when the read itself succeeds: anything that does not decode counts as empty.
  function Decode(c: Content): Aliases {
    match c case Encoded(m) => m case _ => map[]
  }

  function Apply(m: Aliases, e: Edit): Aliases {
    if e.alias == "" then m - {e.key} else m[e.key := e.alias]
  }

  // The alias map after a sequence of edits.
  function Fold(m: Aliases, edits: seq<Edit>): Aliases {
    if edits == [] then m else Apply(Fold(m, edits[..|edits| - 1]), edits[|edits| - 1])
  }

  // Where one caller of Set stands. Everything from Loading to Committed happens under the file lock.
  datatype Phase =
    | Waiting
    | Loading
    | Writing(next: Aliases)
    | Renaming(next: Aliases)
    | RemovingTmp
    | Committed
    | Returned(ok: bool)
    | Crashed

  type Pid = nat

  datatype System = System(
    file: Content,
    tmp: Content,
    holder: Option<Pid>,
    phases: map<Pid, Phase>,
    requests: map<Pid, Edit>,
    // history
    initial: Content,
    committed: seq<Pid>,
    loads: seq<(Aliases, nat)>)

  datatype Action =
    | Calls(p: Pid, e: Edit)
    | FailsBeforeLock(p: Pid)
    | Locks(p: Pid)
    | LoadFails(p: Pid)
    | Loads(p: Pid)
    | WriteFails(p: Pid, left: Content)
    | Writes(p: Pid)
    | RenameFails(p: Pid)
    | Renames(p: Pid)
    | RemovesTmp(p: Pid, gone: bool)
    | Unlocks(p: Pid)
    | Crashes(p: Pid, debris: Option<Content>)
    | UnlockedLoad

  function Start(initial: Content, tmp: Content): System {
    System(initial, tmp, None, map[], map[], initial, [], [])
  }

  predicate At(s: System, p: Pid, phase: Phase) {
    p in s.phases && s.phases[p] == phase
  }

  predicate UnderLock(ph: Phase) {
    ph.Loading? || ph.Writing? || ph.Renaming? || ph.RemovingTmp? || ph.Committed?
  }

  function Move(s: System, p: Pid, ph: Phase): System {
    s.(phases := s.phases[p := ph])
  }

  // Leave the critical section, as the deferred unlock does on every return path.
  function Leave(s: System, p: Pid, ph: Phase): System {
    Move(s, p, ph).(holder := None)
  }

  function Step(s: System, a: Action): Option<System> {
    match a
    case Calls(p, e) =>
      if p in s.phases then None
      else Some(Move(s, p, if e.key == "" then Returned(true) else Waiting).(requests := s.requests[p := e]))
    case FailsBeforeLock(p) => if At(s, p, Waiting) then Some(Move(s, p, Returned(false))) else None
    case Locks(p) =>
      if At(s, p, Waiting) && s.holder.None? then Some(Move(s, p, Loading).(holder := Some(p))) else None
    case LoadFails(p) => if At(s, p, Loading) then Some(Leave(s, p, Returned(false))) else None
    case Loads(p) =>
      if At(s, p, Loading) && p in s.requests
      then Some(Move(s, p, Writing(Apply(Decode(s.file), s.requests[p])))) else None
    case WriteFails(p, left) =>
      if p in s.phases && s.phases[p].Writing? then Some(Leave(s, p, Returned(false)).(tmp := left)) else None
    case Writes(p) =>
      if p in s.phases && s.phases[p].Writing?
      then Some(Move(s, p, Renaming(s.phases[p].next)).(tmp := Encoded(s.phases[p].next))) else None
    case RenameFails(p) =>
      if p in s.phases && s.phases[p].Renaming? then Some(Move(s, p, RemovingTmp)) else None
    case Renames(p) =>
      if p in s.phases && s.phases[p].Renaming?
      then Some(Move(s, p, Committed).(file := s.tmp, tmp := Missing, committed := s.committed + [p])) else None
    case RemovesTmp(p, gone) =>
      // A failed removal is ignored.
      if At(s, p, RemovingTmp)
      then Some(Leave(s, p, Returned(false)).(tmp := if gone then Missing else s.tmp)) else None
    case Unlocks(p) => if At(s, p, Committed) then Some(Leave(s, p, Returned(true))) else None
    case Crashes(p, debris) =>
      // The system drops a dead process's lock. A crash inside the write may leave anything in tmp.
      if p !in s.phases || s.phases[p].Returned? || s.phases[p].Crashed? then None
      else if debris.Some? && !s.phases[p].Writing? then None
      else
        var t := s.(tmp := if debris.Some? then debris.value else s.tmp);
        Some(if UnderLock(s.phases[p]) then Leave(t, p, Crashed) else Move(t, p, Crashed))
    case UnlockedLoad => Some(s.(loads := s.loads + [(Decode(s.file), |s.committed|)]))
  }

  // The edits behind a sequence of commits.
  function Edits(pids: seq<Pid>, requests: map<Pid, Edit>): seq<Edit>
    requires forall i :: 0 <= i < |pids| ==> pids[i] in requests
  {
    seq(|pids|, i requires 0 <= i < |pids| => requests[pids[i]])
  }

  ghost predicate LockInv(s: System) {
    && s.phases.Keys == s.requests.Keys
    && (forall p :: p in s.phases ==> (UnderLock(s.phases[p]) <==> s.holder == Some(p)))
    && (s.holder.Some? ==> s.holder.value in s.phases)
    && (forall p :: p in s.phases && !s.phases[p].Returned? ==> s.requests[p].key != "")
  }

  // Each commit is one caller's, with a real key, made exactly once.
  ghost predicate CommitInv(s: System) {
    && (forall i :: 0 <= i < |s.committed| ==> s.committed[i] in s.requests)
    && (forall i, j :: 0 <= i < j < |s.committed| ==> s.committed[i] != s.committed[j])
    && (forall p ::
          p in s.phases
          && (s.phases[p].Committed? || (s.phases[p] == Returned(true) && p in s.requests && s.requests[p].key != ""))
          ==> p in s.committed)
    && (forall p :: p in s.committed ==>
          && p in s.phases && p in s.requests && s.requests[p].key != ""
          && (s.phases[p].Committed? || s.phases[p] == Returned(true) || s.phases[p].Crashed?))
  }

  // A caller about to write or rename holds the lock and has the current aliases with its edit.
  ghost predicate Prepared(s: System, p: Pid)
    requires p in s.phases && p in s.requests
  {
    && (s.phases[p].Writing? ==> s.phases[p].next == Apply(Decode(s.file), s.requests[p]))
    && (s.phases[p].Renaming?
      ==> s.phases[p].next == Apply(Decode(s.file), s.requests[p]) && s.tmp == Encoded(s.phases[p].next))
  }

  ghost predicate FileInv(s: System)
    requires CommitInv(s)
  {
    && Decode(s.file) == Fold(Decode(s.initial), Edits(s.committed, s.requests))
    && (forall p :: p in s.phases && p in s.requests ==> Prepared(s, p))
  }

  ghost predicate LoadInv(s: System)
    requires CommitInv(s)
  {
    forall i :: 0 <= i < |s.loads| ==>
      s.loads[i].1 <= |s.committed|
      && s.loads[i].0 == Fold(Decode(s.initial), Edits(s.committed[..s.loads[i].1], s.requests))
  }

  ghost predicate Inv(s: System) {
    LockInv(s) && CommitInv(s) && FileInv(s) && LoadInv(s)
  }

  lemma MoveKeepsLockInv(s: System, t: System, p: Pid)
    requires LockInv(s) && p in s.phases && p in t.phases && t.phases == s.phases[p := t.phases[p]]
        && t.requests == s.requests
    requires !s.phases[p].Returned?
    requires UnderLock(t.phases[p]) ==> t.holder == Some(p) && (s.holder.None? || s.holder == Some(p))
    requires !UnderLock(t.phases[p]) ==> t.holder == if UnderLock(s.phases[p]) then None else s.holder
    ensures LockInv(t)
  {
  }

  lemma StepKeepsLockInv(s: System, a: Action)
    requires LockInv(s) && Step(s, a).Some?
    ensures LockInv(Step(s, a).value)
  {
    if !a.Calls? && !a.UnlockedLoad? {
      MoveKeepsLockInv(s, Step(s, a).value, a.p);
    }
  }

  // Every step but a call, a rename and an unlocked load only moves one caller within the protocol.
  ghost predicate OnlyMoves(s: System, t: System, p: Pid) {
    && t.file == s.file && t.initial == s.initial && t.requests == s.requests
    && t.committed == s.committed && t.loads == s.loads
    && p in s.phases && p in t.phases && t.phases == s.phases[p := t.phases[p]]
  }

  lemma StepOnlyMoves(s: System, a: Action)
    requires LockInv(s) && Step(s, a).Some? && !a.Calls? && !a.Renames? && !a.UnlockedLoad?
    ensures OnlyMoves(s, Step(s, a).value, a.p)
    ensures s.phases[a.p].Committed?
        ==> Step(s, a).value.phases[a.p] == Returned(true) || Step(s, a).value.phases[a.p].Crashed?
    ensures !s.phases[a.p].Committed?
        ==> Step(s, a).value.phases[a.p] != Returned(true) && !Step(s, a).value.phases[a.p].Committed?
    ensures !s.phases[a.p].Returned? && !s.phases[a.p].Crashed?
  {
  }

  lemma StepKeepsCommitInv(s: System, a: Action)
    requires LockInv(s) && CommitInv(s) && Step(s, a).Some?
    ensures CommitInv(Step(s, a).value)
  {
    if !a.Calls? && !a.Renames? && !a.UnlockedLoad? {
      StepOnlyMoves(s, a);
      MoveKeepsCommitInv(s, Step(s, a).value, a.p);
    }
  }

  lemma MoveKeepsCommitInv(s: System, t: System, p: Pid)
    requires CommitInv(s) && OnlyMoves(s, t, p)
    requires s.phases[p].Committed? ==> t.phases[p] == Returned(true) || t.phases[p].Crashed?
    requires !s.phases[p].Committed? ==> t.phases[p] != Returned(true) && !t.phases[p].Committed?
    requires !s.phases[p].Returned? && !s.phases[p].Crashed?
    ensures CommitInv(t)
  {
  }

  lemma LaterRequestsKeepEdits(pids: seq<Pid>, requests: map<Pid, Edit>, p: Pid, e: Edit)
    requires forall i :: 0 <= i < |pids| ==> pids[i] in requests
    requires p !in requests
    ensures Edits(pids, requests[p := e]) == Edits(pids, requests)
  {
  }

  // A commit appends its edit to the fold.
  lemma CommitAppends(m: Aliases, pids: seq<Pid>, requests: map<Pid, Edit>, p: Pid)
    requires p in requests && forall i :: 0 <= i < |pids| ==> pids[i] in requests
    ensures Fold(m, Edits(pids + [p], requests)) == Apply(Fold(m, Edits(pids, requests)), requests[p])
  {
    var before := Edits(pids, requests);
    assert Edits(pids + [p], requests) == before + [requests[p]];
    assert (before + [requests[p]])[..|before|] == before;
  }

  lemma CallKeepsLoads(s: System, p: Pid, e: Edit)
    requires Inv(s) && Step(s, Calls(p, e)).Some? && CommitInv(Step(s, Calls(p, e)).value)
    ensures LoadInv(Step(s, Calls(p, e)).value)
  {
    var t := Step(s, Calls(p, e)).value;
    forall i | 0 <= i < |t.loads|
      ensures t.loads[i].1 <= |t.committed|
      ensures t.loads[i].0 == Fold(Decode(t.initial), Edits(t.committed[..t.loads[i].1], t.requests))
    {
      LaterRequestsKeepEdits(s.committed[..s.loads[i].1], s.requests, p, e);
    }
  }

  lemma CallKeepsFile(s: System, p: Pid, e: Edit)
    requires Inv(s) && Step(s, Calls(p, e)).Some? && CommitInv(Step(s, Calls(p, e)).value)
    ensures FileInv(Step(s, Calls(p, e)).value)
  {
    LaterRequestsKeepEdits(s.committed, s.requests, p, e);
  }

  lemma RenameKeepsFile(s: System, p: Pid)
    requires Inv(s) && Step(s, Renames(p)).Some? && CommitInv(Step(s, Renames(p)).value)
    ensures FileInv(Step(s, Renames(p)).value)
  {
    var t := Step(s, Renames(p)).value;
    assert Prepared(s, p) && s.holder == Some(p);
    CommitAppends(Decode(s.initial), s.committed, s.requests, p);
    forall q | q in t.phases && q in t.requests ensures Prepared(t, q) {
      assert q != p ==> !UnderLock(s.phases[q]);
    }
  }

  lemma RenameKeepsLoads(s: System, p: Pid)
    requires Inv(s) && Step(s, Renames(p)).Some? && CommitInv(Step(s, Renames(p)).value)
    ensures LoadInv(Step(s, Renames(p)).value)
  {
    forall i | 0 <= i < |s.loads| ensures (s.committed + [p])[..s.loads[i].1] == s.committed[..s.loads[i].1] {}
  }

  lemma UnlockedLoadKeepsData(s: System)
    requires Inv(s)
    ensures LoadInv(Step(s, UnlockedLoad).value)
  {
    assert s.committed[..|s.committed|] == s.committed;
  }

  lemma OtherStepKeepsData(s: System, a: Action)
    requires Inv(s) && Step(s, a).Some? && !a.Calls? && !a.Renames? && !a.UnlockedLoad?
    ensures CommitInv(Step(s, a).value) && FileInv(Step(s, a).value) && LoadInv(Step(s, a).value)
  {
    var t := Step(s, a).value;
    StepKeepsCommitInv(s, a);
    StepOnlyMoves(s, a);
    StepOwnsTmp(s, a);
    TmpStaysWithItsWriter(s, t, a.p);
    assert forall q :: q in t.phases ==> Prepared(t, q);
  }

  // tmp belongs to the lock holder.
  lemma StepOwnsTmp(s: System, a: Action)
    requires Inv(s) && Step(s, a).Some? && !a.Calls? && !a.Renames? && !a.UnlockedLoad?
    requires OnlyMoves(s, Step(s, a).value, a.p)
    ensures Prepared(Step(s, a).value, a.p)
    ensures Step(s, a).value.tmp != s.tmp ==> s.holder == Some(a.p)
  {
  }

  // So a caller about to rename finds there what it wrote.
  lemma TmpStaysWithItsWriter(s: System, t: System, p: Pid)
    requires Inv(s) && OnlyMoves(s, t, p) && Prepared(t, p)
    requires t.tmp != s.tmp ==> s.holder == Some(p)
    ensures forall q :: q in t.phases ==> Prepared(t, q)
  {
    forall q | q in t.phases ensures Prepared(t, q) {
      if q != p && t.phases[q].Renaming? {
        assert UnderLock(s.phases[q]);
      }
    }
  }

  lemma {:induction false} StepKeepsInv(s: System, a: Action)
    requires Inv(s) && Step(s, a).Some?
    ensures Inv(Step(s, a).value)
  {
    StepKeepsLockInv(s, a);
    StepKeepsCommitInv(s, a);
    match a
    case Calls(p, e) =>
      CallKeepsFile(s, p, e);
      CallKeepsLoads(s, p, e);
    case Renames(p) =>
      RenameKeepsFile(s, p);
      RenameKeepsLoads(s, p);
    case UnlockedLoad => UnlockedLoadKeepsData(s);
    case _ => OtherStepKeepsData(s, a);
  }

  ghost predicate IsStart(s: System) {
    s == Start(s.initial, s.tmp)
  }

  ghost predicate IsRun(states: seq<System>, actions: seq<Action>) {
    Runs.IsRun(s => IsStart(s), Step, states, actions)
  }

  lemma StartHasInv(s: System)
    requires IsStart(s)
    ensures Inv(s)
  {
    assert Edits([], s.requests) == [];
  }

  lemma RunKeepsInv(states: seq<System>, actions: seq<Action>, i: nat)
    requires IsRun(states, actions) && i < |states|
    ensures Inv(states[i])
  {
    forall s | IsStart(s) ensures Inv(s) {
      StartHasInv(s);
    }
    forall s, a | Inv(s) && Step(s, a).Some? ensures Inv(Step(s, a).value) {
      StepKeepsInv(s, a);
    }
    Runs.InvariantHolds(s => IsStart(s), Step, s => Inv(s), states, actions, i);
  }

  // No update is lost: the file is the fold of the committed edits in lock order; every Set that
  // reported success for a real key is among them exactly once, and nothing that failed is.
  lemma FileIsFoldOfCommits(states: seq<System>, actions: seq<Action>, i: nat)
    requires IsRun(states, actions) && i < |states|
    ensures var s := states[i];
      && (forall k :: 0 <= k < |s.committed| ==> s.committed[k] in s.requests)
      && Decode(s.file) == Fold(Decode(s.initial), Edits(s.committed, s.requests))
      && (forall j, k :: 0 <= j < k < |s.committed| ==> s.committed[j] != s.committed[k])
      && (forall p :: p in s.phases && p in s.requests && s.phases[p].Returned? && s.requests[p].key != "" ==>
            (s.phases[p].ok <==> p in s.committed))
  {
    RunKeepsInv(states, actions, i);
  }

  // What a caller asked for, and who has renamed, in that order.

  function RequestOf(actions: seq<Action>, p: Pid): Option<Edit> {
    if actions == [] then None
    else
      match actions[|actions| - 1]
      case Calls(q, e) => if q == p then Some(e) else RequestOf(actions[..|actions| - 1], p)
      case _ => RequestOf(actions[..|actions| - 1], p)
  }

  function RenamedBy(actions: seq<Action>): seq<Pid> {
    if actions == [] then []
    else
      match actions[|actions| - 1]
      case Renames(p) => RenamedBy(actions[..|actions| - 1]) + [p]
      case _ => RenamedBy(actions[..|actions| - 1])
  }

  lemma RequestStep(s: System, a: Action, p: Pid)
    requires Step(s, a).Some? && s.phases.Keys == s.requests.Keys
    ensures var t := Step(s, a).value;
      && t.committed == (if a.Renames? then s.committed + [a.p] else s.committed)
      && (p in t.requests <==> p in s.requests || (a.Calls? && a.p == p))
      && (p in t.requests ==> t.requests[p] == if a.Calls? && a.p == p then a.e else s.requests[p])
  {
  }

  lemma RequestsGrow(actions: seq<Action>, a: Action, p: Pid)
    ensures RequestOf(actions + [a], p) == if a.Calls? && a.p == p then Some(a.e) else RequestOf(actions, p)
    ensures RenamedBy(actions + [a]) == if a.Renames? then RenamedBy(actions) + [a.p] else RenamedBy(actions)
  {
    FrontOfAppended(actions, a);
  }

  // The commits are the renames, in that order, and each has the edit that its caller asked for.
  lemma {:induction false} CommitsFollowCalls(states: seq<System>, actions: seq<Action>, i: nat, p: Pid)
    requires IsRun(states, actions) && i < |states|
    ensures states[i].committed == RenamedBy(actions[..i])
    ensures p in states[i].requests <==> RequestOf(actions[..i], p).Some?
    ensures p in states[i].requests ==> Some(states[i].requests[p]) == RequestOf(actions[..i], p)
  {
    if i > 0 {
      var front, a := actions[..i - 1], actions[i - 1];
      CommitsFollowCalls(states, actions, i - 1, p);
      RunKeepsInv(states, actions, i - 1);
      assert Step(states[i - 1], a) == Some(states[i]);
      RequestStep(states[i - 1], a, p);
      assert actions[..i] == front + [a];
      RequestsGrow(front, a, p);
    }
  }

  // A Load without the lock sees the result of some prefix of the commits, never a torn file.
  lemma LoadSeesPrefix(states: seq<System>, actions: seq<Action>, i: nat, l: nat)
    requires IsRun(states, actions) && i < |states| && l < |states[i].loads|
    ensures var s := states[i];
      && (forall k :: 0 <= k < |s.committed| ==> s.committed[k] in s.requests)
      && s.loads[l].1 <= |s.committed|
      && s.loads[l].0 == Fold(Decode(s.initial), Edits(s.committed[..s.loads[l].1], s.requests))
  {
    RunKeepsInv(states, actions, i);
  }

  // What can go wrong in one uninterrupted Set.
  datatype Fault = NoFault | LockFault | LoadFault | WriteFault(debris: Content) | RenameFault(tmpRemoved: bool)

  datatype Result = Result(file: Content, tmp: Content, ok: bool)

  // What one uninterrupted Set does: on success the file holds the edited map, on any failure it is untouched.
  function SetResult(file: Content, tmp: Content, e: Edit, fault: Fault): Result {
    if e.key == "" then Result(file, tmp, true)
    else
      match fault
      case LockFault => Result(file, tmp, false)
      case LoadFault => Result(file, tmp, false)
      case WriteFault(debris) => Result(file, debris, false)
      case RenameFault(tmpRemoved) =>
        Result(file, if tmpRemoved then Missing else Encoded(Apply(Decode(file), e)), false)
      case NoFault => Result(Encoded(Apply(Decode(file), e)), Missing, true)
  }

  function Then(s: Option<System>, a: Action): Option<System> {
    if s.Some? then Step(s.value, a) else None
  }

  // The steps of the protocol that an uninterrupted Set takes, from writing the temporary file on.
  function SaveRun(s: System, p: Pid, fault: Fault): Option<System> {
    if fault.WriteFault? then Step(s, WriteFails(p, fault.debris))
    else if fault.RenameFault? then
      Then(Then(Step(s, Writes(p)), RenameFails(p)), RemovesTmp(p, fault.tmpRemoved))
    else Then(Then(Step(s, Writes(p)), Renames(p)), Unlocks(p))
  }

  // All of its steps.
  function SetRun(s: System, p: Pid, e: Edit, fault: Fault): Option<System> {
    var called := Step(s, Calls(p, e));
    if e.key == "" then called
    else if fault.LockFault? then Then(called, FailsBeforeLock(p))
    else
      var locked := Then(called, Locks(p));
      if fault.LoadFault? then Then(locked, LoadFails(p))
      else
        match Then(locked, Loads(p)) case Some(t) => SaveRun(t, p, fault) case None => None
  }

  lemma SaveFollowsProtocol(s: System, p: Pid, fault: Fault)
    requires p in s.phases && s.phases[p].Writing? && !fault.LockFault? && !fault.LoadFault?
    ensures var next, end := Encoded(s.phases[p].next), SaveRun(s, p, fault);
      && end.Some? && end.value.holder.None? && At(end.value, p, Returned(fault.NoFault?))
      && end.value.file == (if fault.NoFault? then next else s.file)
      && end.value.tmp == (match fault
                           case WriteFault(d) => d
                           case RenameFault(gone) => if gone then Missing else next
                           case _ => Missing)
      && end.value.committed == s.committed + if fault.NoFault? then [p] else []
  {
    assert s.committed + [] == s.committed;
  }

  lemma SetLoads(s: System, p: Pid, e: Edit)
    requires p !in s.phases && s.holder.None? && e.key != ""
    ensures var t := Then(Then(Step(s, Calls(p, e)), Locks(p)), Loads(p));
      && t.Some? && At(t.value, p, Writing(Apply(Decode(s.file), e)))
      && t.value.file == s.file && t.value.tmp == s.tmp && t.value.committed == s.committed
  {
  }

  // In a state in which the lock is free these steps are possible and do what Set does.
  lemma SetFollowsProtocol(s: System, p: Pid, e: Edit, fault: Fault)
    requires p !in s.phases && s.holder.None?
    ensures var r, end := SetResult(s.file, s.tmp, e, fault), SetRun(s, p, e, fault);
      && end.Some? && end.value.holder.None? && At(end.value, p, Returned(r.ok))
      && end.value.file == r.file && end.value.tmp == r.tmp
      && end.value.committed == s.committed + if r.ok && e.key != "" then [p] else []
  {
    if e.key != "" && !fault.LockFault? && !fault.LoadFault? {
      SetLoads(s, p, e);
      SaveFollowsProtocol(Then(Then(Step(s, Calls(p, e)), Locks(p)), Loads(p)).value, p, fault);
    } else {
      assert s.committed + [] == s.committed;
    }
  }

  /** The store as one process uses it. */
  class Store {
    var file: Content
    var tmp: Content
    var locked: bool

    // Load, which takes no lock.
    method Load() returns (aliases: Aliases)
      ensures aliases == Decode(file)
      ensures aliases == if file.Encoded? then file.aliases else map[]
    {
      match file
      case Encoded(m) => aliases := m;
      case _ => aliases := map[];
    }

    // The lock is released on every path.
    method Set(key: string, alias: string, fault: Fault) returns (ok: bool)
      requires !locked
      modifies this
      ensures !locked
      ensures Result(file, tmp, ok) == SetResult(old(file), old(tmp), Edit(key, alias), fault)
      ensures ok <==> key == "" || fault.NoFault?
      ensures !ok || key == "" ==> file == old(file)
      ensures key == "" || fault.LockFault? || fault.LoadFault? ==> tmp == old(tmp)
      ensures ok && key != "" ==>
                var before := if old(file).Encoded? then old(file).aliases else map[];
                tmp == Missing && file == Encoded(if alias == "" then before - {key} else before[key := alias])
    {
      if key == "" {
        return true;
      }
      if fault.LockFault? {
        return false;
      }
      locked := true;
      if fault.LoadFault? {
        locked := false;
        return false;
      }
      var m := Load();
      if alias == "" {
        m := m - {key};
      } else {
        m := m[key := alias];
      }
      if fault.WriteFault? {
        tmp := fault.debris;
        locked := false;
        return false;
      }
      tmp := Encoded(m);
      if fault.RenameFault? {
        if fault.tmpRemoved {
          tmp := Missing;
        }
        locked := false;
        return false;
      }
      file, tmp := tmp, Missing;
      locked := false;
      return true;
    }
  }

  // After any sequence of edits a key holds what its last edit gave it.
  lemma {:induction false} LastEditWins(m: Aliases, edits: seq<Edit>, i: nat)
    requires i < |edits| && forall j :: i < j < |edits| ==> edits[j].key != edits[i].key
    ensures edits[i].alias == "" ==> edits[i].key !in Fold(m, edits)
    ensures edits[i].alias != "" ==> edits[i].key in Fold(m, edits) && Fold(m, edits)[edits[i].key] == edits[i].alias
    decreases |edits|
  {
    var n := |edits| - 1;
    if i < n {
      LastEditWins(m, edits[..n], i);
    }
  }

  // And a key without an edit holds what it held before.
  lemma {:induction false} UneditedKeysStay(m: Aliases, edits: seq<Edit>, key: string)
    requires forall i :: 0 <= i < |edits| ==> edits[i].key != key
    ensures key in Fold(m, edits) <==> key in m
    ensures key in m ==> Fold(m, edits)[key] == m[key]
    decreases |edits|
  {
    if edits != [] {
      UneditedKeysStay(m, edits[..|edits| - 1], key);
    }
  }

  // A committed alias stays in the file until a later commit for the same key.
  lemma NoUpdateIsLost(states: seq<System>, actions: seq<Action>, i: nat, k: nat)
    requires IsRun(states, actions) && i < |states| && k < |states[i].committed|
    requires forall j :: k <= j < |states[i].committed| ==> states[i].committed[j] in states[i].requests
    requires var s := states[i];
      forall j :: k < j < |s.committed| ==> s.requests[s.committed[j]].key != s.requests[s.committed[k]].key
    ensures var s := states[i];
      var e := s.requests[s.committed[k]];
      if e.alias == "" then e.key !in Decode(s.file) else e.key in Decode(s.file) && Decode(s.file)[e.key] == e.alias
  {
    var s := states[i];
    RunKeepsInv(states, actions, i);
    LastEditWins(Decode(s.initial), Edits(s.committed, s.requests), k);
  }
}
