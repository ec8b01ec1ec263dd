/** The event log of one session, as read from its events.jsonl file. */
module EventLog {
  import opened Prelude

  // The names ask_user, ask_question and request_permission, and all others.
  datatype ToolName = AskUser | AskQuestion | RequestPermission | OtherTool(name: string)

  datatype Kind =
    | Shutdown
    | TurnStart
    | TurnEnd
    | ToolStart(tool: ToolName)
    | ToolComplete
    | PermissionRequested
    | PermissionCompleted
    | UserRequested
    | Other

  // ts is the parsed timestamp; 0 stands for the zero time (an unparsable stamp).
  datatype Event = Event(kind: Kind, ts: int)

  type Log = seq<Event>

  datatype State = Unknown | Exited | InactiveIdle | ActiveIdle | Done | Working | Waiting

  predicate IsUserPromptingTool(name: ToolName) {
    name.AskUser? || name.AskQuestion? || name.RequestPermission?
  }

  predicate IsPromptingStart(e: Event) {
    e.kind.ToolStart? && IsUserPromptingTool(e.kind.tool)
  }

  ghost predicate HasShutdown(log: Log) {
    exists i :: 0 <= i < |log| && log[i].kind.Shutdown?
  }

  ghost predicate HasUserRequest(log: Log) {
    exists i :: 0 <= i < |log| && log[i].kind.UserRequested?
  }

  ghost predicate HasTurnEnd(log: Log) {
    exists i :: 0 <= i < |log| && log[i].kind.TurnEnd?
  }

  // Permission requests minus permission completions.
  function PermissionBalance(log: Log): int {
    if log == [] then 0
    else
      (match log[0].kind case PermissionRequested => 1 case PermissionCompleted => -1 case _ => 0)
      + PermissionBalance(log[1..])
  }

  // Some suffix asks for more permissions than are answered in it.
  ghost predicate PermissionPending(log: Log) {
    exists k :: 0 <= k <= |log| && PermissionBalance(log[k..]) > 0
  }

  function PromptingStarts(log: Log): nat {
    if log == [] then 0
    else (if IsPromptingStart(log[0]) then 1 else 0) + PromptingStarts(log[1..])
  }

  function ToolDelta(e: Event, countPrompts: bool): int {
    match e.kind
    case ToolComplete => 1
    case ToolStart(_) => if IsPromptingStart(e) && !countPrompts then 0 else -1
    case _ => 0
  }

  // Tool completions minus tool starts; prompting starts count only on request.
  function ToolSurplus(log: Log, countPrompts: bool): int {
    if log == [] then 0
    else ToolDelta(log[0], countPrompts) + ToolSurplus(log[1..], countPrompts)
  }

  // The counter a backward scan is left with when it never goes below zero.
  function ToolCredit(log: Log, countPrompts: bool): nat {
    if log == [] then 0
    else Max(0, ToolDelta(log[0], countPrompts) + ToolCredit(log[1..], countPrompts))
  }

  // The saturating backward counter is the greatest surplus of any prefix.
  lemma {:induction false} CreditIsGreatestPrefixSurplus(log: Log, countPrompts: bool)
    ensures forall k :: 0 <= k <= |log| ==> ToolSurplus(log[..k], countPrompts) <= ToolCredit(log, countPrompts)
    ensures exists k :: 0 <= k <= |log| && ToolSurplus(log[..k], countPrompts) == ToolCredit(log, countPrompts)
  {
    if log == [] {
      assert ToolSurplus(log[..0], countPrompts) == 0;
    } else {
      var rest := log[1..];
      CreditIsGreatestPrefixSurplus(rest, countPrompts);
      forall k | 0 <= k < |log|
        ensures ToolSurplus(log[..k + 1], countPrompts)
             == ToolDelta(log[0], countPrompts) + ToolSurplus(rest[..k], countPrompts)
      {
        assert log[..k + 1][1..] == rest[..k];
      }
      forall k | 0 <= k <= |log|
        ensures ToolSurplus(log[..k], countPrompts) <= ToolCredit(log, countPrompts)
      {
        if k > 0 {
          assert ToolSurplus(rest[..k - 1], countPrompts) <= ToolCredit(rest, countPrompts);
          assert log[..(k - 1) + 1] == log[..k];
        }
      }
      var j :| 0 <= j <= |rest| && ToolSurplus(rest[..j], countPrompts) == ToolCredit(rest, countPrompts);
      if ToolDelta(log[0], countPrompts) + ToolCredit(rest, countPrompts) >= 0 {
        assert ToolSurplus(log[..j + 1], countPrompts) == ToolCredit(log, countPrompts);
      } else {
        assert ToolSurplus(log[..0], countPrompts) == ToolCredit(log, countPrompts);
      }
    }
  }

  // Index just past the last turn_end, or 0.
  function TurnBoundary(log: Log): (b: nat)
    ensures b <= |log|
    ensures b > 0 ==> log[b - 1].kind.TurnEnd?
    ensures forall i :: b <= i < |log| ==> !log[i].kind.TurnEnd?
  {
    if log == [] then 0
    else if log[|log| - 1].kind.TurnEnd? then |log|
    else TurnBoundary(log[..|log| - 1])
  }

  // The events after the last turn_end.
  function CurrentTurn(log: Log): Log {
    log[TurnBoundary(log)..]
  }

  // Timestamp of the last turn_start, or the zero time.
  function LastStart(log: Log): int {
    if log == [] then 0
    else if log[|log| - 1].kind.TurnStart? then log[|log| - 1].ts
    else LastStart(log[..|log| - 1])
  }

  // Timestamp of the last turn_end, or the zero time.
  function LastEnd(log: Log): int {
    if log == [] then 0
    else if log[|log| - 1].kind.TurnEnd? then log[|log| - 1].ts
    else LastEnd(log[..|log| - 1])
  }

  predicate MidTurn(log: Log) {
    LastStart(log) != 0 && LastStart(log) > LastEnd(log)
  }

  lemma RequestsBack(e: Event, s: Log)
    ensures HasUserRequest([e] + s) <==> e.kind.UserRequested? || HasUserRequest(s)
  {
    var t := [e] + s;
    if HasUserRequest(s) {
      var i :| 0 <= i < |s| && s[i].kind.UserRequested?;
      assert t[i + 1].kind.UserRequested?;
    }
    if e.kind.UserRequested? {
      assert t[0].kind.UserRequested?;
    }
  }

  lemma PendingBack(e: Event, s: Log)
    ensures PermissionPending([e] + s) <==> PermissionBalance([e] + s) > 0 || PermissionPending(s)
    ensures !PermissionPending(s) ==> PermissionBalance(s) <= 0
  {
    assert s[0..] == s;
    var t := [e] + s;
    assert forall k :: 0 <= k <= |s| ==> t[k + 1..] == s[k..];
    if PermissionPending(s) {
      var k :| 0 <= k <= |s| && PermissionBalance(s[k..]) > 0;
      assert t[k + 1..] == s[k..];
    }
    assert t[0..] == t;
    if PermissionPending(t) {
      var k :| 0 <= k <= |t| && PermissionBalance(t[k..]) > 0;
      if k > 0 {
        assert t[k..] == s[k - 1..];
      }
    }
  }

  // How the backward scan's view changes when it reaches one event further back.
  lemma ExtendBack(e: Event, s: Log)
    ensures PermissionBalance([e] + s) ==
            PermissionBalance(s)
            + (match e.kind case PermissionRequested => 1 case PermissionCompleted => -1 case _ => 0)
    ensures PromptingStarts([e] + s) == PromptingStarts(s) + if IsPromptingStart(e) then 1 else 0
    ensures forall c :: ToolCredit([e] + s, c) == Max(0, ToolDelta(e, c) + ToolCredit(s, c))
    ensures HasUserRequest([e] + s) <==> e.kind.UserRequested? || HasUserRequest(s)
    ensures PermissionPending([e] + s) <==> PermissionBalance([e] + s) > 0 || PermissionPending(s)
    ensures !PermissionPending(s) ==> PermissionBalance(s) <= 0
  {
    assert ([e] + s)[1..] == s;
    RequestsBack(e, s);
    PendingBack(e, s);
  }

  lemma {:induction false} SurplusConcat(a: Log, b: Log, c: bool)
    ensures ToolSurplus(a + b, c) == ToolSurplus(a, c) + ToolSurplus(b, c)
  {
    if a == [] {
      assert a + b == b;
    } else {
      assert (a + b)[1..] == a[1..] + b;
      SurplusConcat(a[1..], b, c);
    }
  }

  lemma {:induction false} StartsConcat(a: Log, b: Log)
    ensures PromptingStarts(a + b) == PromptingStarts(a) + PromptingStarts(b)
  {
    if a == [] {
      assert a + b == b;
    } else {
      assert (a + b)[1..] == a[1..] + b;
      StartsConcat(a[1..], b);
    }
  }

  // The two surpluses differ by the prompting starts.
  lemma {:induction false} SurplusDifference(log: Log)
    ensures ToolSurplus(log, false) == ToolSurplus(log, true) + PromptingStarts(log)
  {
    if log != [] {
      SurplusDifference(log[1..]);
    }
  }

  lemma {:induction false} BalanceConcat(a: Log, b: Log)
    ensures PermissionBalance(a + b) == PermissionBalance(a) + PermissionBalance(b)
  {
    if a == [] {
      assert a + b == b;
    } else {
      assert (a + b)[1..] == a[1..] + b;
      BalanceConcat(a[1..], b);
    }
  }

  lemma {:induction false} CreditOfConcat(a: Log, b: Log, c: bool)
    ensures ToolCredit(a + b, c) == Max(ToolCredit(a, c), ToolSurplus(a, c) + ToolCredit(b, c))
  {
    if a == [] {
      assert a + b == b;
    } else {
      assert (a + b)[1..] == a[1..] + b;
      CreditOfConcat(a[1..], b, c);
    }
  }

  lemma RequestsOfConcat(a: Log, b: Log)
    ensures HasUserRequest(a + b) <==> HasUserRequest(a) || HasUserRequest(b)
  {
    var log := a + b;
    forall i | 0 <= i < |a| ensures log[i] == a[i] {}
    forall i | 0 <= i < |b| ensures log[|a| + i] == b[i] {}
    if i :| 0 <= i < |log| && log[i].kind.UserRequested? {
      assert if i < |a| then a[i].kind.UserRequested? else b[i - |a|].kind.UserRequested?;
    }
  }

  lemma ShutdownsOfConcat(a: Log, b: Log)
    ensures HasShutdown(a + b) <==> HasShutdown(a) || HasShutdown(b)
  {
    var log := a + b;
    forall i | 0 <= i < |a| ensures log[i] == a[i] {}
    forall i | 0 <= i < |b| ensures log[|a| + i] == b[i] {}
    if i :| 0 <= i < |log| && log[i].kind.Shutdown? {
      assert if i < |a| then a[i].kind.Shutdown? else b[i - |a|].kind.Shutdown?;
    }
  }
}
