/** The classifier of sessions gathered from a remote host (internal/remote/remote.go). */
module RemoteClassifier {
  import opened Prelude
  import opened EventLog

  // The prompting start at i has no completion to spare after it, counting every start.
  ghost predicate UnansweredAt(log: Log, i: nat) {
    i < |log| && IsPromptingStart(log[i]) && ToolCredit(log[i + 1..], true) == 0
  }

  ghost predicate PromptUnanswered(log: Log) {
    exists i :: UnansweredAt(log, i)
  }

  // Unlike the local classifier, the scan does not stop at the last turn_end.
  ghost predicate AwaitsUser(log: Log) {
    HasUserRequest(log) || PermissionPending(log) || PromptUnanswered(log)
  }

  ghost function Verdict(log: Log, pid: int): State {
    if log == [] then Unknown
    else if HasShutdown(log) then Exited
    else if AwaitsUser(log) then Waiting
    else if MidTurn(log) then Working
    else if log[|log| - 1].kind.TurnEnd? then
      if pid > 0 then ActiveIdle else InactiveIdle
    else Unknown
  }

  ghost predicate Scanned(s: Log, completed: int, permCompleted: int) {
    && completed == ToolCredit(s, true)
    && permCompleted == -PermissionBalance(s)
    && !AwaitsUser(s)
  }

  lemma UnansweredShift(e: Event, s: Log, i: nat)
    ensures UnansweredAt([e] + s, i + 1) <==> UnansweredAt(s, i)
  {
    if i < |s| {
      assert ([e] + s)[i + 1 + 1..] == s[i + 1..];
    }
  }

  lemma ExtendBackUnanswered(e: Event, s: Log)
    ensures PromptUnanswered([e] + s) <==>
            (IsPromptingStart(e) && ToolCredit(s, true) == 0) || PromptUnanswered(s)
  {
    var t := [e] + s;
    assert t[0 + 1..] == s;
    assert UnansweredAt(t, 0) <==> IsPromptingStart(e) && ToolCredit(s, true) == 0;
    if i: nat :| UnansweredAt(s, i) {
      UnansweredShift(e, s, i);
    }
    if i: nat :| UnansweredAt(t, i) {
      if i > 0 {
        UnansweredShift(e, s, i - 1);
      }
    }
  }

  // One more event read: either the scan goes on with the updated counters or it has its answer.
  lemma ScanBack(e: Event, s: Log, completed: int, permCompleted: int)
    requires Scanned(s, completed, permCompleted)
    ensures match e.kind
      case ToolComplete => Scanned([e] + s, completed + 1, permCompleted)
      case PermissionCompleted => Scanned([e] + s, completed, permCompleted + 1)
      case PermissionRequested =>
        if permCompleted > 0 then Scanned([e] + s, completed, permCompleted - 1) else AwaitsUser([e] + s)
      case UserRequested => AwaitsUser([e] + s)
      case ToolStart(tool) =>
        if completed > 0 then Scanned([e] + s, completed - 1, permCompleted)
        else if IsUserPromptingTool(tool) then AwaitsUser([e] + s)
        else Scanned([e] + s, completed, permCompleted)
      case _ => Scanned([e] + s, completed, permCompleted)
  {
    ExtendBack(e, s);
    ExtendBackUnanswered(e, s);
  }

  lemma BlockedSuffixBlocksLog(log: Log, i: nat)
    requires i <= |log| && AwaitsUser(log[i..])
    ensures AwaitsUser(log)
  {
    var s := log[i..];
    if HasUserRequest(s) {
      var k :| 0 <= k < |s| && s[k].kind.UserRequested?;
      assert log[i + k].kind.UserRequested?;
    } else if PermissionPending(s) {
      var k :| 0 <= k <= |s| && PermissionBalance(s[k..]) > 0;
      assert s[k..] == log[i + k..];
    } else {
      var k :| UnansweredAt(s, k);
      assert s[k + 1..] == log[i + k + 1..];
      assert UnansweredAt(log, i + k);
    }
  }

  method BlockedOnUser(events: Log) returns (blocked: bool)
    ensures blocked <==> AwaitsUser(events)
  {
    var completed, permCompleted := 0, 0;
    var i := |events|;
    while i > 0
      invariant 0 <= i <= |events|
      invariant Scanned(events[i..], completed, permCompleted)
    {
      var e := events[i - 1];
      ScanBack(e, events[i..], completed, permCompleted);
      i := i - 1;
      SuffixStep(events, i);
      match e.kind {
        case ToolComplete => completed := completed + 1;
        case PermissionCompleted => permCompleted := permCompleted + 1;
        case PermissionRequested =>
          if permCompleted > 0 {
            permCompleted := permCompleted - 1;
          } else {
            BlockedSuffixBlocksLog(events, i);
            return true;
          }
        case UserRequested =>
          BlockedSuffixBlocksLog(events, i);
          return true;
        case ToolStart(tool) =>
          if completed > 0 {
            completed := completed - 1;
          } else if IsUserPromptingTool(tool) {
            BlockedSuffixBlocksLog(events, i);
            return true;
          }
        case _ =>
      }
    }
    assert events[0..] == events;
    return false;
  }

  method ClassifyEventsTail(events: Log, pid: int) returns (state: State, at: int)
    ensures state == Verdict(events, pid)
    ensures at == if events == [] then 0 else events[|events| - 1].ts
  {
    if |events| == 0 {
      return Unknown, 0;
    }
    var last := events[|events| - 1];
    at := last.ts;
    for j := 0 to |events|
      invariant forall k :: 0 <= k < j ==> !events[k].kind.Shutdown?
    {
      if events[j].kind.Shutdown? {
        return Exited, at;
      }
    }
    var blocked := BlockedOnUser(events);
    if blocked {
      return Waiting, at;
    }
    var lastStart, lastEnd := 0, 0;
    for j := 0 to |events|
      invariant lastStart == LastStart(events[..j]) && lastEnd == LastEnd(events[..j])
    {
      assert events[..j + 1][..j] == events[..j];
      match events[j].kind {
        case TurnStart => lastStart := events[j].ts;
        case TurnEnd => lastEnd := events[j].ts;
        case _ =>
      }
    }
    assert events[..|events|] == events;
    if lastStart != 0 && lastStart > lastEnd {
      return Working, at;
    }
    if last.kind.TurnEnd? {
      if pid > 0 {
        return ActiveIdle, at;
      }
      return InactiveIdle, at;
    }
    return Unknown, at;
  }
}
