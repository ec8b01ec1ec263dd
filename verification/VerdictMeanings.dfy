/**
 What the classifiers of local and remote sessions answer (internal/sessions/statedir.go,
 internal/remote/remote.go), in terms of the events of the log and their numbers alone.
 */
module VerdictMeanings {
  import opened Prelude
  import opened EventLog
  import Local = LocalClassifier
  import Remote = RemoteClassifier

  // How many events satisfy p.
  ghost function Number(log: Log, p: Event -> bool): nat {
    |set i: nat | i < |log| && p(log[i])|
  }

  ghost function Requests(log: Log): nat {
    Number(log, (e: Event) => e.kind == PermissionRequested)
  }

  ghost function Grants(log: Log): nat {
    Number(log, (e: Event) => e.kind == PermissionCompleted)
  }

  ghost function Completions(log: Log): nat {
    Number(log, (e: Event) => e.kind == ToolComplete)
  }

  // Does the tool stop for the user, as ask_user, ask_question and request_permission do?
  predicate StartsPrompt(e: Event) {
    e.kind in {ToolStart(AskUser), ToolStart(AskQuestion), ToolStart(RequestPermission)}
  }

  ghost function Prompts(log: Log): nat {
    Number(log, (e: Event) => StartsPrompt(e))
  }

  ghost function PlainStarts(log: Log): nat {
    Number(log, (e: Event) => e.kind.ToolStart? && e.kind.tool.OtherTool?)
  }

  lemma NumberGrows(front: Log, e: Event, p: Event -> bool)
    ensures Number(front + [e], p) == Number(front, p) + if p(e) then 1 else 0
  {
    var log := front + [e];
    var before, now := set i: nat | i < |front| && p(front[i]), set i: nat | i < |log| && p(log[i]);
    assert now == before + if p(e) then {|front|} else {};
  }

  lemma NumbersGrow(front: Log, e: Event)
    ensures Requests(front + [e]) == Requests(front) + if e.kind == PermissionRequested then 1 else 0
    ensures Grants(front + [e]) == Grants(front) + if e.kind == PermissionCompleted then 1 else 0
    ensures Completions(front + [e]) == Completions(front) + if e.kind == ToolComplete then 1 else 0
    ensures Prompts(front + [e]) == Prompts(front) + if StartsPrompt(e) then 1 else 0
    ensures PlainStarts(front + [e]) == PlainStarts(front)
            + if e.kind.ToolStart? && e.kind.tool.OtherTool? then 1 else 0
  {
    NumberGrows(front, e, (e: Event) => e.kind == PermissionRequested);
    NumberGrows(front, e, (e: Event) => e.kind == PermissionCompleted);
    NumberGrows(front, e, (e: Event) => e.kind == ToolComplete);
    NumberGrows(front, e, (e: Event) => StartsPrompt(e));
    NumberGrows(front, e, (e: Event) => e.kind.ToolStart? && e.kind.tool.OtherTool?);
  }

  // The counters of both scans are differences of such numbers.
  lemma {:induction false} CountersAreNumbers(log: Log)
    ensures PermissionBalance(log) == Requests(log) - Grants(log)
    ensures PromptingStarts(log) == Prompts(log)
    ensures ToolSurplus(log, false) == Completions(log) - PlainStarts(log)
    ensures ToolSurplus(log, true) == Completions(log) - PlainStarts(log) - Prompts(log)
    decreases |log|
  {
    if log != [] {
      var front, e := log[..|log| - 1], log[|log| - 1];
      assert log == front + [e] && [e][1..] == [];
      CountersAreNumbers(front);
      NumbersGrow(front, e);
      BalanceConcat(front, [e]);
      StartsConcat(front, [e]);
      SurplusConcat(front, [e], false);
      SurplusConcat(front, [e], true);
    }
  }

  // The event at k is the last turn_start.
  ghost predicate LastStartAt(log: Log, k: nat) {
    k < |log| && log[k].kind.TurnStart? && forall i :: k < i < |log| ==> !log[i].kind.TurnStart?
  }

  // The event at j is the last turn_end.
  ghost predicate LastEndAt(log: Log, j: nat) {
    j < |log| && log[j].kind.TurnEnd? && forall i :: j < i < |log| ==> !log[i].kind.TurnEnd?
  }

  ghost predicate HasTurnStart(log: Log) {
    exists i :: 0 <= i < |log| && log[i].kind.TurnStart?
  }

  lemma {:induction false} LastStartMeans(log: Log)
    ensures !HasTurnStart(log) ==> LastStart(log) == 0
    ensures forall k: nat :: LastStartAt(log, k) ==> LastStart(log) == log[k].ts
    ensures HasTurnStart(log) ==> exists k: nat :: LastStartAt(log, k)
    decreases |log|
  {
    if log != [] {
      var n := |log| - 1;
      var front := log[..n];
      assert forall i :: 0 <= i < n ==> front[i] == log[i];
      if log[n].kind.TurnStart? {
        assert LastStartAt(log, n) && forall k: nat :: LastStartAt(log, k) ==> k == n;
      } else {
        LastStartMeans(front);
        assert forall k: nat :: LastStartAt(front, k) <==> LastStartAt(log, k);
        if HasTurnStart(log) {
          var i :| 0 <= i < |log| && log[i].kind.TurnStart?;
          assert front[i].kind.TurnStart?;
          var k: nat :| LastStartAt(front, k);
          assert LastStartAt(log, k);
        }
      }
    }
  }

  lemma {:induction false} LastEndMeans(log: Log)
    ensures !HasTurnEnd(log) ==> LastEnd(log) == 0
    ensures forall k: nat :: LastEndAt(log, k) ==> LastEnd(log) == log[k].ts
    ensures HasTurnEnd(log) ==> exists k: nat :: LastEndAt(log, k)
    decreases |log|
  {
    if log != [] {
      var n := |log| - 1;
      var front := log[..n];
      assert forall i :: 0 <= i < n ==> front[i] == log[i];
      if log[n].kind.TurnEnd? {
        assert LastEndAt(log, n) && forall k: nat :: LastEndAt(log, k) ==> k == n;
      } else {
        LastEndMeans(front);
        assert forall k: nat :: LastEndAt(front, k) <==> LastEndAt(log, k);
        if HasTurnEnd(log) {
          var i :| 0 <= i < |log| && log[i].kind.TurnEnd?;
          assert front[i].kind.TurnEnd?;
          var k: nat :| LastEndAt(front, k);
          assert LastEndAt(log, k);
        }
      }
    }
  }

  // A turn is running: the last turn_start has a stamp, and a later one than the last turn_end, where
  // a log without turn_end counts as ended at the zero time.
  ghost predicate TurnRuns(log: Log) {
    exists k: nat :: LastStartAt(log, k) && log[k].ts != 0
             && (!HasTurnEnd(log) ==> log[k].ts > 0)
             && (forall j: nat :: LastEndAt(log, j) ==> log[k].ts > log[j].ts)
  }

  lemma MidTurnMeans(log: Log)
    ensures MidTurn(log) <==> TurnRuns(log)
  {
    LastStartMeans(log);
    LastEndMeans(log);
  }

  // Some suffix from b on asks for more permissions than it grants.
  ghost predicate PermissionMissing(log: Log, b: nat) {
    exists k :: b <= k <= |log| && Requests(log[k..]) > Grants(log[k..])
  }

  lemma PendingMeans(log: Log, b: nat)
    requires b <= |log|
    ensures PermissionPending(log[b..]) <==> PermissionMissing(log, b)
  {
    var turn := log[b..];
    if PermissionPending(turn) {
      var k :| 0 <= k <= |turn| && PermissionBalance(turn[k..]) > 0;
      assert turn[k..] == log[b + k..];
      CountersAreNumbers(log[b + k..]);
      assert PermissionMissing(log, b);
    }
    if PermissionMissing(log, b) {
      var k :| b <= k <= |log| && Requests(log[k..]) > Grants(log[k..]);
      assert turn[k - b..] == log[k..];
      CountersAreNumbers(log[k..]);
    }
  }

  // At no point do the completions beyond the plain starts so far reach the prompts of the turn.
  ghost predicate PromptShort(turn: Log) {
    forall k :: 0 <= k <= |turn| ==> Prompts(turn) > Completions(turn[..k]) - PlainStarts(turn[..k])
  }

  lemma OutstandingMeans(turn: Log)
    ensures Local.PromptOutstanding(turn) <==> PromptShort(turn)
  {
    CountersAreNumbers(turn);
    forall k | 0 <= k <= |turn|
      ensures ToolSurplus(turn[..k], false) == Completions(turn[..k]) - PlainStarts(turn[..k])
    {
      CountersAreNumbers(turn[..k]);
    }
  }

  // b is where the current turn begins: behind the last turn_end.
  ghost predicate TurnBegins(log: Log, b: nat) {
    b <= |log| && (b > 0 ==> log[b - 1].kind.TurnEnd?) && forall i :: b <= i < |log| ==> !log[i].kind.TurnEnd?
  }

  // The local answer. It is taken from the current turn but for a shutdown, which counts anywhere.
  lemma LocalVerdictMeans(log: Log, b: nat)
    requires TurnBegins(log, b)
    ensures Local.Verdict(log) ==
            if exists i :: 0 <= i < |log| && log[i].kind == Shutdown then (Exited, false)
            else if (exists i :: b <= i < |log| && log[i].kind == UserRequested)
                    || PermissionMissing(log, b) || PromptShort(log[b..]) then (Waiting, false)
            else if TurnRuns(log) then (Working, false)
            else (Unknown, true)
  {
    assert b == TurnBoundary(log);
    var turn := log[b..];
    assert HasUserRequest(turn) <==> exists i :: b <= i < |log| && log[i].kind == UserRequested by {
      if i :| b <= i < |log| && log[i].kind == UserRequested {
        assert turn[i - b].kind.UserRequested?;
      }
    }
    PendingMeans(log, b);
    OutstandingMeans(turn);
    MidTurnMeans(log);
  }

  // No stretch from i on completes more tools than it starts.
  ghost predicate NothingSpareFrom(log: Log, i: nat) {
    forall k :: i <= k <= |log| ==> Completions(log[i..k]) <= PlainStarts(log[i..k]) + Prompts(log[i..k])
  }

  lemma NoCreditMeans(log: Log, i: nat)
    requires i <= |log|
    ensures ToolCredit(log[i..], true) == 0 <==> NothingSpareFrom(log, i)
  {
    var s := log[i..];
    CreditIsGreatestPrefixSurplus(s, true);
    forall k | i <= k <= |log|
      ensures ToolSurplus(s[..k - i], true) == Completions(log[i..k]) - PlainStarts(log[i..k]) - Prompts(log[i..k])
    {
      assert s[..k - i] == log[i..k];
      CountersAreNumbers(log[i..k]);
    }
    if NothingSpareFrom(log, i) {
      forall k | 0 <= k <= |s| ensures ToolSurplus(s[..k], true) <= 0 {
        assert s[..k] == log[i..i + k];
        CountersAreNumbers(log[i..i + k]);
      }
    }
  }

  // A prompt with nothing spare behind it.
  ghost predicate PromptStands(log: Log, i: nat) {
    i < |log| && StartsPrompt(log[i]) && NothingSpareFrom(log, i + 1)
  }

  lemma UnansweredMeans(log: Log)
    ensures Remote.PromptUnanswered(log) <==> exists i: nat :: PromptStands(log, i)
  {
    forall i: nat | i < |log| ensures Remote.UnansweredAt(log, i) <==> PromptStands(log, i) {
      NoCreditMeans(log, i + 1);
    }
    if exists i: nat :: PromptStands(log, i) {
      var i: nat :| PromptStands(log, i);
      assert Remote.UnansweredAt(log, i);
    }
    if exists i: nat :: Remote.UnansweredAt(log, i) {
      var i: nat :| Remote.UnansweredAt(log, i);
      assert PromptStands(log, i);
    }
  }

  // The remote answer. It is taken from the whole log, and idle only if the log ends with a turn_end.
  lemma RemoteVerdictMeans(log: Log, pid: int)
    ensures Remote.Verdict(log, pid) ==
            if exists i :: 0 <= i < |log| && log[i].kind == Shutdown then Exited
            else if (exists i :: 0 <= i < |log| && log[i].kind == UserRequested)
                    || PermissionMissing(log, 0) || (exists i: nat :: PromptStands(log, i)) then Waiting
            else if TurnRuns(log) then Working
            else if log == [] || log[|log| - 1].kind != TurnEnd then Unknown
            else if pid > 0 then ActiveIdle
            else InactiveIdle
  {
    assert log[0..] == log;
    PendingMeans(log, 0);
    UnansweredMeans(log);
    MidTurnMeans(log);
    if log == [] {
      CountersAreNumbers([]);
      assert forall k :: 0 <= k <= 0 ==> log[k..] == [];
    }
  }

  // Where both find the session idle, the remote answer is what the local caller makes of an unlocked
  // database. A log that ends in anything but a turn_end is idle locally and unknown remotely.
  lemma IdleAnswersAgree(log: Log, pid: int)
    requires log != [] && !HasShutdown(log) && !Remote.AwaitsUser(log) && !MidTurn(log)
    requires Local.Verdict(log) == (Unknown, true)
    ensures Local.LoadedState(Some(log), false, pid) == if pid > 0 then ActiveIdle else InactiveIdle
    ensures Remote.Verdict(log, pid) ==
            if log[|log| - 1].kind == TurnEnd then Local.LoadedState(Some(log), false, pid) else Unknown
  {
    RemoteVerdictMeans(log, pid);
    MidTurnMeans(log);
  }

  // A log that ends with a turn_end never waits locally: unless it is shut down or out of order it is idle.
  lemma EndedTurnIsIdle(log: Log, locked: bool, pid: int)
    requires log != [] && log[|log| - 1].kind == TurnEnd
    ensures Local.LoadedState(Some(log), locked, pid) ==
            if exists i :: 0 <= i < |log| && log[i].kind == Shutdown then Exited
            else if TurnRuns(log) then Working
            else if locked || pid > 0 then ActiveIdle
            else InactiveIdle
  {
    LocalVerdictMeans(log, |log|);
    CountersAreNumbers([]);
    var none := log[|log|..];
    assert none == [] && none[..0] == [];
    assert forall k :: |log| <= k <= |log| ==> log[k..] == [];
    assert PermissionBalance([]) == 0 && PromptingStarts([]) == 0 && ToolSurplus([], false) == 0;
    assert !PromptShort(none) by {
      assert !(Prompts(none) > Completions(none[..0]) - PlainStarts(none[..0]));
    }
  }
}
