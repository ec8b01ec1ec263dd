/** The classifier of local sessions (internal/sessions/statedir.go). */
module LocalClassifier {
  import opened Prelude
  import opened EventLog

  // More prompting starts than any prefix has completions to spare.
  ghost predicate PromptOutstanding(turn: Log) {
    forall k :: 0 <= k <= |turn| ==> PromptingStarts(turn) > ToolSurplus(turn[..k], false)
  }

  // What it means for the current turn to be blocked on the user.
  ghost predicate AwaitsUser(turn: Log) {
    HasUserRequest(turn) || PermissionPending(turn) || PromptOutstanding(turn)
  }

  // The verdict and whether the caller must consult the database lock.
  ghost function Verdict(log: Log): (State, bool) {
    if HasShutdown(log) then (Exited, false)
    else if AwaitsUser(CurrentTurn(log)) then (Waiting, false)
    else if MidTurn(log) then (Working, false)
    else (Unknown, true)
  }

  lemma OutstandingIsCreditShortfall(turn: Log)
    ensures PromptOutstanding(turn) <==> PromptingStarts(turn) > ToolCredit(turn, false)
  {
    CreditIsGreatestPrefixSurplus(turn, false);
  }

  // What the backward scan knows once it has read the events of s without answering.
  ghost predicate Scanned(s: Log, completed: int, permCompleted: int, promptingStarts: int) {
    && completed == ToolCredit(s, false)
    && permCompleted == -PermissionBalance(s)
    && promptingStarts == PromptingStarts(s)
    && !PermissionPending(s)
    && !HasUserRequest(s)
  }

  // One more event read: either the scan goes on with the updated counters or it has its answer.
  lemma ScanBack(e: Event, s: Log, completed: int, permCompleted: int, promptingStarts: int)
    requires Scanned(s, completed, permCompleted, promptingStarts)
    ensures match e.kind
      case ToolComplete => Scanned([e] + s, completed + 1, permCompleted, promptingStarts)
      case PermissionCompleted => Scanned([e] + s, completed, permCompleted + 1, promptingStarts)
      case PermissionRequested =>
        if permCompleted > 0 then Scanned([e] + s, completed, permCompleted - 1, promptingStarts)
        else PermissionPending([e] + s)
      case UserRequested => HasUserRequest([e] + s)
      case ToolStart(tool) =>
        if IsUserPromptingTool(tool) then Scanned([e] + s, completed, permCompleted, promptingStarts + 1)
        else Scanned([e] + s, if completed > 0 then completed - 1 else completed, permCompleted, promptingStarts)
      case _ => Scanned([e] + s, completed, permCompleted, promptingStarts)
  {
    ExtendBack(e, s);
  }

  // With the whole turn read, the counters decide.
  lemma ScanEnds(turn: Log, completed: int, permCompleted: int, promptingStarts: int)
    requires Scanned(turn, completed, permCompleted, promptingStarts)
    ensures AwaitsUser(turn) <==> promptingStarts > 0 && completed < promptingStarts
  {
    OutstandingIsCreditShortfall(turn);
  }

  // A blocking request in the part already read blocks the whole turn.
  lemma BlockedSuffixBlocksTurn(turn: Log, i: nat)
    requires i <= |turn|
    requires HasUserRequest(turn[i..]) || PermissionPending(turn[i..])
    ensures AwaitsUser(turn)
  {
    if HasUserRequest(turn[i..]) {
      var k :| 0 <= k < |turn[i..]| && turn[i..][k].kind.UserRequested?;
      assert turn[i + k].kind.UserRequested?;
    } else {
      var k :| 0 <= k <= |turn[i..]| && PermissionBalance(turn[i..][k..]) > 0;
      assert turn[i..][k..] == turn[i + k..];
    }
  }

  lemma BlockedReadBlocksTurn(evs: Log, i: nat)
    requires TurnBoundary(evs) <= i <= |evs| && (HasUserRequest(evs[i..]) || PermissionPending(evs[i..]))
    ensures AwaitsUser(CurrentTurn(evs))
  {
    var b := TurnBoundary(evs);
    assert CurrentTurn(evs)[i - b..] == evs[i..];
    BlockedSuffixBlocksTurn(CurrentTurn(evs), i - b);
  }

  method BlockedOnUser(evs: Log) returns (blocked: bool)
    ensures blocked <==> AwaitsUser(CurrentTurn(evs))
  {
    var completed, permCompleted, promptingStarts := 0, 0, 0;
    var i := |evs|;
    ghost var b, read := TurnBoundary(evs), evs[i..];
    while i > 0
      invariant b <= i <= |evs| && read == evs[i..]
      invariant Scanned(read, completed, permCompleted, promptingStarts)
    {
      var e := evs[i - 1];
      if e.kind.TurnEnd? {
        break;
      }
      ScanBack(e, read, completed, permCompleted, promptingStarts);
      SuffixStep(evs, i - 1);
      i, read := i - 1, [e] + read;
      match e.kind {
        case ToolComplete => completed := completed + 1;
        case PermissionCompleted => permCompleted := permCompleted + 1;
        case PermissionRequested =>
          if permCompleted > 0 {
            permCompleted := permCompleted - 1;
          } else {
            BlockedReadBlocksTurn(evs, i);
            return true;
          }
        case UserRequested =>
          BlockedReadBlocksTurn(evs, i);
          return true;
        case ToolStart(tool) =>
          if IsUserPromptingTool(tool) {
            promptingStarts := promptingStarts + 1;
          } else if completed > 0 {
            completed := completed - 1;
          }
        case _ =>
      }
    }
    ScanEnds(CurrentTurn(evs), completed, permCompleted, promptingStarts);
    blocked := promptingStarts > 0 && completed < promptingStarts;
  }

  method ClassifyFromEvents(evs: Log) returns (state: State, needsLsof: bool)
    ensures (state, needsLsof) == Verdict(evs)
  {
    for j := 0 to |evs|
      invariant forall k :: 0 <= k < j ==> !evs[k].kind.Shutdown?
    {
      if evs[j].kind.Shutdown? {
        return Exited, false;
      }
    }
    var blocked := BlockedOnUser(evs);
    if blocked {
      return Waiting, false;
    }
    var lastStart, lastEnd := 0, 0;
    for j := 0 to |evs|
      invariant lastStart == LastStart(evs[..j]) && lastEnd == LastEnd(evs[..j])
    {
      assert evs[..j + 1][..j] == evs[..j];
      match evs[j].kind {
        case TurnStart => lastStart := evs[j].ts;
        case TurnEnd => lastEnd := evs[j].ts;
        case _ =>
      }
    }
    assert evs[..|evs|] == evs;
    if lastStart != 0 && lastStart > lastEnd {
      return Working, false;
    }
    return Unknown, true;
  }

  // What the caller makes of the answer. Without events, and where the events do not decide, a session
  // is active if its database is locked or a process holds it.
  ghost function LoadedState(read: Option<Log>, locked: bool, pid: int): State {
    var (state, needsLsof) := if read.Some? then Verdict(read.value) else (Unknown, true);
    if !needsLsof then state
    else if locked || pid > 0 then ActiveIdle
    else InactiveIdle
  }

  // One state directory. locked is what the lock check says of its database, if it comes to that.
  method LoadStateDir(read: Option<Log>, locked: bool, pid: int) returns (state: State, at: int, dbLocked: bool)
    requires read.Some? ==> read.value != []
    ensures state == LoadedState(read, locked, pid)
    ensures at == if read.Some? then read.value[|read.value| - 1].ts else 0
    ensures dbLocked <==> locked && (read.Some? ==> Verdict(read.value) == (Unknown, true))
  {
    var needsLsof := true;
    state, at, dbLocked := Unknown, 0, false;
    if read.Some? {
      var evs := read.value;
      at := evs[|evs| - 1].ts;
      state, needsLsof := ClassifyFromEvents(evs);
    }
    if needsLsof {
      if locked {
        dbLocked := true;
        state := ActiveIdle;
      } else if pid > 0 {
        state := ActiveIdle;
      } else {
        state := InactiveIdle;
      }
    }
  }
}
