/** When the local and the remote classifier give the same answer. */
module ClassifierAgreement {
  import opened EventLog
  import Local = LocalClassifier
  import Remote = RemoteClassifier

  // The open tools by the position of their starts, when each completion closes the latest open
  // one; st are open before, base is the position of the first event.
  function OpenAfter(st: seq<nat>, log: Log, base: nat): seq<nat>
    decreases |log|
  {
    if log == [] then st
    else
      var next :=
        match log[0].kind
        case ToolStart(_) => st + [base]
        case ToolComplete => if st == [] then [] else st[..|st| - 1]
        case _ => st;
      OpenAfter(next, log[1..], base + 1)
  }

  function OpenStarts(log: Log): seq<nat> {
    OpenAfter([], log, 0)
  }

  function Kept(n: nat, closed: nat): nat {
    if closed >= n then 0 else n - closed
  }

  // A log closes as many of the tools open before it as its credit says, and leaves its own open ones behind.
  lemma {:induction false} OpenSplits(st: seq<nat>, log: Log, base: nat)
    ensures OpenAfter(st, log, base) == st[..Kept(|st|, ToolCredit(log, true))] + OpenAfter([], log, base)
    decreases |log|
  {
    if log != [] {
      var e, rest := log[0], log[1..];
      match e.kind {
        case ToolStart(_) =>
          OpenSplits(st + [base], rest, base + 1);
          OpenSplits([] + [base], rest, base + 1);
          StartSplits(st, base, ToolCredit(rest, true), OpenAfter([], rest, base + 1));
        case ToolComplete =>
          if st != [] {
            OpenSplits(st[..|st| - 1], rest, base + 1);
            assert st[..|st| - 1][..Kept(|st| - 1, ToolCredit(rest, true))]
                == st[..Kept(|st|, ToolCredit(rest, true) + 1)];
          }
        case _ => OpenSplits(st, rest, base + 1);
      }
    }
  }

  lemma StartSplits(st: seq<nat>, base: nat, c: nat, own: seq<nat>)
    ensures (st + [base])[..Kept(|st| + 1, c)] + own
         == st[..Kept(|st|, if c == 0 then 0 else c - 1)] + (([] + [base])[..Kept(1, c)] + own)
  {
    if c == 0 {
      assert (st + [base])[..|st| + 1] == st + [base];
    } else {
      assert (st + [base])[..Kept(|st| + 1, c)] == st[..Kept(|st|, c - 1)];
    }
  }

  // The event at position i starts a tool and has no completion to spare behind it.
  ghost predicate NoneToSpare(log: Log, base: nat, i: nat) {
    base <= i < base + |log| && log[i - base].kind.ToolStart? && ToolCredit(log[i - base + 1..], true) == 0
  }

  lemma NoneToSpareBack(log: Log, base: nat, i: nat)
    requires log != []
    ensures (i == base && log[0].kind.ToolStart? && ToolCredit(log[1..], true) == 0)
            || NoneToSpare(log[1..], base + 1, i)
       <==> NoneToSpare(log, base, i)
  {
    var rest := log[1..];
    if base < i < base + |log| {
      assert rest[i - (base + 1)] == log[i - base];
      assert rest[i - (base + 1) + 1..] == log[i - base + 1..];
    }
  }

  lemma OpenAfterBack(log: Log, base: nat, i: nat)
    requires log != []
    ensures (i == base && log[0].kind.ToolStart? && ToolCredit(log[1..], true) == 0)
            || i in OpenAfter([], log[1..], base + 1)
       <==> i in OpenAfter([], log, base)
  {
    var rest := log[1..];
    if log[0].kind.ToolStart? {
      var one: seq<nat> := [base];
      assert [] + one == one && one[..1] == one && one[..0] == [];
      OpenSplits(one, rest, base + 1);
      assert OpenAfter([], log, base) == OpenAfter(one, rest, base + 1);
    } else {
      assert OpenAfter([], log, base) == OpenAfter([], rest, base + 1);
    }
  }

  // The tools left open are the starts with no completion to spare behind them.
  lemma {:induction false} OpenMeansNoneToSpare(log: Log, base: nat, i: nat)
    ensures i in OpenAfter([], log, base) <==> NoneToSpare(log, base, i)
    decreases |log|
  {
    if log == [] {
      assert OpenAfter([], log, base) == [];
    } else {
      OpenMeansNoneToSpare(log[1..], base + 1, i);
      OpenAfterBack(log, base, i);
      NoneToSpareBack(log, base, i);
    }
  }

  // Some prompting tool is left open.
  ghost predicate PromptLeftOpen(log: Log) {
    exists i :: i in OpenStarts(log) && i < |log| && IsPromptingStart(log[i])
  }

  // The remote prompt test closes the latest open tool with each completion.
  lemma RemotePromptTest(log: Log)
    ensures Remote.PromptUnanswered(log) <==> PromptLeftOpen(log)
  {
    if i: nat :| Remote.UnansweredAt(log, i) {
      OpenMeansNoneToSpare(log, 0, i);
      assert i in OpenStarts(log);
    }
    if i :| i in OpenStarts(log) && i < |log| && IsPromptingStart(log[i]) {
      OpenMeansNoneToSpare(log, 0, i);
      assert Remote.UnansweredAt(log, i);
    }
  }

  // No tool is open after the first k events.
  ghost predicate IdleAt(log: Log, k: nat)
    requires k <= |log|
  {
    ToolSurplus(log[..k], true) == 0
  }

  // No prefix completes more tools than it starts.
  ghost predicate NoOverdraft(log: Log) {
    forall k :: 0 <= k <= |log| ==> ToolSurplus(log[..k], true) <= 0
  }

  // A prompting start with no idle point behind it.
  ghost predicate PromptSinceIdleAt(log: Log, i: nat) {
    i < |log| && IsPromptingStart(log[i]) && forall k: nat :: i < k <= |log| ==> !IdleAt(log, k)
  }

  ghost predicate PromptSinceIdle(log: Log) {
    exists i :: PromptSinceIdleAt(log, i)
  }

  lemma {:induction false} LastPromptingStart(log: Log) returns (i: nat)
    requires PromptingStarts(log) > 0
    ensures i < |log| && IsPromptingStart(log[i]) && PromptingStarts(log[i + 1..]) == 0
  {
    if PromptingStarts(log[1..]) > 0 {
      i := LastPromptingStart(log[1..]);
      assert log[1..][i + 1..] == log[i + 1 + 1..];
      i := i + 1;
    } else {
      i := 0;
    }
  }

  lemma {:induction false} OccursMeansCounted(log: Log, i: nat)
    requires i < |log| && IsPromptingStart(log[i])
    ensures PromptingStarts(log) > 0
  {
    if i > 0 {
      OccursMeansCounted(log[1..], i - 1);
    }
  }

  // What is spare after k events falls short of all prompting starts exactly if tools are open
  // there or a prompting start follows.
  lemma ShortfallAt(turn: Log, k: nat)
    requires k <= |turn|
    ensures PromptingStarts(turn) - ToolSurplus(turn[..k], false)
         == PromptingStarts(turn[k..]) - ToolSurplus(turn[..k], true)
  {
    assert turn == turn[..k] + turn[k..];
    StartsConcat(turn[..k], turn[k..]);
    SurplusDifference(turn[..k]);
  }

  // At every point the prompting starts to come outnumber the completions in excess of starts so far.
  ghost predicate PromptOwed(turn: Log) {
    forall k :: 0 <= k <= |turn| ==> PromptingStarts(turn[k..]) > ToolSurplus(turn[..k], true)
  }

  // The local prompt test, on every turn.
  lemma LocalPromptTest(turn: Log)
    ensures Local.PromptOutstanding(turn) <==> PromptOwed(turn)
  {
    forall k | 0 <= k <= |turn|
      ensures PromptingStarts(turn) > ToolSurplus(turn[..k], false)
          <==> PromptingStarts(turn[k..]) > ToolSurplus(turn[..k], true)
    {
      ShortfallAt(turn, k);
    }
  }

  lemma OwedMeansSinceIdle(turn: Log)
    requires PromptOwed(turn)
    ensures PromptSinceIdle(turn)
  {
    assert turn[0..] == turn && ToolSurplus(turn[..0], true) == 0;
    var i := LastPromptingStart(turn);
    forall k: nat | i < k <= |turn| ensures !IdleAt(turn, k) {
      assert turn[i + 1..] == turn[i + 1..k] + turn[k..];
      StartsConcat(turn[i + 1..k], turn[k..]);
    }
    assert PromptSinceIdleAt(turn, i);
  }

  lemma OwedAt(turn: Log, i: nat, k: nat)
    requires NoOverdraft(turn) && PromptSinceIdleAt(turn, i) && k <= |turn|
    ensures PromptingStarts(turn[k..]) > ToolSurplus(turn[..k], true)
  {
    assert ToolSurplus(turn[..k], true) <= 0;
    if k <= i {
      assert turn[k..][i - k] == turn[i];
      OccursMeansCounted(turn[k..], i - k);
    } else {
      assert !IdleAt(turn, k);
    }
  }

  // On a turn that never overdraws the local test asks for a prompting start since the last idle
  // point, answered or not.
  lemma OwedSinceIdle(turn: Log)
    requires NoOverdraft(turn)
    ensures PromptOwed(turn) <==> PromptSinceIdle(turn)
  {
    if PromptOwed(turn) {
      OwedMeansSinceIdle(turn);
    }
    if i: nat :| PromptSinceIdleAt(turn, i) {
      forall k | 0 <= k <= |turn| ensures PromptingStarts(turn[k..]) > ToolSurplus(turn[..k], true) {
        OwedAt(turn, i, k);
      }
    }
  }

  // An open tool keeps the turn from being idle again.
  lemma OpenMeansBusy(turn: Log, i: nat, k: nat)
    requires NoOverdraft(turn) && i < k <= |turn| && turn[i].kind.ToolStart? && ToolCredit(turn[i + 1..], true) == 0
    ensures !IdleAt(turn, k)
  {
    var since := turn[i + 1..];
    CreditIsGreatestPrefixSurplus(since, true);
    assert ToolSurplus(since[..k - i - 1], true) <= 0;
    assert turn[..k] == turn[..i] + ([turn[i]] + since[..k - i - 1]);
    SurplusConcat(turn[..i], [turn[i]] + since[..k - i - 1], true);
    SurplusConcat([turn[i]], since[..k - i - 1], true);
    assert [turn[i]][1..] == [];
    assert ToolSurplus(turn[..i], true) <= 0;
  }

  // Whatever the remote prompt test reports, the local one reports too.
  lemma RemotePromptImpliesLocal(turn: Log)
    requires NoOverdraft(turn) && Remote.PromptUnanswered(turn)
    ensures Local.PromptOutstanding(turn)
  {
    var i: nat :| Remote.UnansweredAt(turn, i);
    forall k: nat | i < k <= |turn| ensures !IdleAt(turn, k) {
      OpenMeansBusy(turn, i, k);
    }
    assert PromptSinceIdleAt(turn, i);
    LocalPromptTest(turn);
    OwedSinceIdle(turn);
  }

  // The prompt tests differ exactly if there is a prompting start since the last idle point and a
  // later completion has closed every such start.
  lemma PromptTestsDiffer(turn: Log)
    requires NoOverdraft(turn)
    ensures (Local.PromptOutstanding(turn) <==> !Remote.PromptUnanswered(turn))
       <==> PromptSinceIdle(turn) && forall i :: PromptSinceIdleAt(turn, i) ==> i !in OpenStarts(turn)
  {
    LocalPromptTest(turn);
    OwedSinceIdle(turn);
    if Remote.PromptUnanswered(turn) {
      RemotePromptImpliesLocal(turn);
      var i: nat :| Remote.UnansweredAt(turn, i);
      OpenMeansNoneToSpare(turn, 0, i);
      forall k: nat | i < k <= |turn| ensures !IdleAt(turn, k) {
        OpenMeansBusy(turn, i, k);
      }
      assert PromptSinceIdleAt(turn, i) && i in OpenStarts(turn);
    } else {
      RemotePromptTest(turn);
    }
  }

  // Tools run one at a time: a start only when none is open, a completion only of an open one.
  datatype Tool = Closed | Open(prompting: bool) | Overlapping

  function Advance(t: Tool, e: Event): Tool {
    if t.Overlapping? then t
    else match e.kind
      case ToolStart(_) => if t.Closed? then Open(IsPromptingStart(e)) else Overlapping
      case ToolComplete => if t.Open? then Closed else Overlapping
      case _ => t
  }

  function RunTools(t: Tool, log: Log): Tool
    decreases |log|
  {
    if log == [] then t else RunTools(Advance(t, log[0]), log[1..])
  }

  ghost predicate HasToolEvent(log: Log) {
    exists i :: 0 <= i < |log| && (log[i].kind.ToolStart? || log[i].kind.ToolComplete?)
  }

  // The current turn: tools one at a time, the last possibly still open.
  ghost predicate OneToolAtATime(log: Log) {
    !RunTools(Closed, log).Overlapping?
  }

  lemma {:induction false} OverlapIsFinal(log: Log)
    ensures RunTools(Overlapping, log) == Overlapping
  {
    if log != [] { OverlapIsFinal(log[1..]); }
  }

  lemma ToolEventBack(log: Log)
    requires log != []
    ensures HasToolEvent(log) <==> log[0].kind.ToolStart? || log[0].kind.ToolComplete? || HasToolEvent(log[1..])
  {
    var rest := log[1..];
    forall i | 0 <= i < |rest| ensures log[i + 1] == rest[i] {}
    if i :| 0 <= i < |rest| && (rest[i].kind.ToolStart? || rest[i].kind.ToolComplete?) {
      assert log[i + 1] == rest[i];
    }
    if i :| 1 <= i < |log| && (log[i].kind.ToolStart? || log[i].kind.ToolComplete?) {
      assert rest[i - 1] == log[i];
    }
  }

  // Both ways of counting see exactly the prompting tool that is still open, if any.
  lemma {:induction false} SequentialCredits(t: Tool, log: Log)
    requires !RunTools(t, log).Overlapping?
    ensures var pending := if RunTools(t, log) == Open(true) then 1 else 0;
      if t.Closed? || HasToolEvent(log) then
        && (Remote.PromptUnanswered(log) <==> pending == 1)
        && pending <= PromptingStarts(log)
        && ToolCredit(log, true) == (if t.Closed? then 0 else 1)
        && ToolCredit(log, false) == PromptingStarts(log) - pending + (if t.Closed? then 0 else 1)
      else
        && RunTools(t, log) == t
        && !Remote.PromptUnanswered(log)
        && PromptingStarts(log) == ToolCredit(log, true) == ToolCredit(log, false) == 0
    decreases |log|
  {
    if log != [] {
      var e, rest := log[0], log[1..];
      var t' := Advance(t, e);
      assert log == [e] + rest;
      if t'.Overlapping? {
        OverlapIsFinal(rest);
      }
      SequentialCredits(t', rest);
      ExtendBack(e, rest);
      Remote.ExtendBackUnanswered(e, rest);
      ToolEventBack(log);
    }
  }

  // Settled history neither hides nor creates a pending permission.
  lemma PendingOnlyInCurrentTurn(earlier: Log, turn: Log)
    requires !PermissionPending(earlier)
    ensures PermissionPending(earlier + turn) <==> PermissionPending(turn)
  {
    var log := earlier + turn;
    if PermissionPending(turn) {
      var k :| 0 <= k <= |turn| && PermissionBalance(turn[k..]) > 0;
      assert log[|earlier| + k..] == turn[k..];
    }
    if PermissionPending(log) {
      var k :| 0 <= k <= |log| && PermissionBalance(log[k..]) > 0;
      if k >= |earlier| {
        assert log[k..] == turn[k - |earlier|..];
      } else {
        assert log[k..] == earlier[k..] + turn;
        BalanceConcat(earlier[k..], turn);
        assert turn[0..] == turn;
      }
    }
  }

  lemma NoOverdraftMeansNoCredit(turn: Log)
    ensures NoOverdraft(turn) <==> ToolCredit(turn, true) == 0
  {
    CreditIsGreatestPrefixSurplus(turn, true);
  }

  lemma NothingToSpare(a: Log, b: Log)
    requires ToolCredit(b, true) == 0
    ensures ToolCredit(a + b, true) == ToolCredit(a, true)
  {
    CreditOfConcat(a, b, true);
    CreditIsGreatestPrefixSurplus(a, true);
    assert a[..|a|] == a;
  }

  // A turn that does not overdraw its own tools leaves those of earlier turns as they were.
  lemma PromptsByTurn(earlier: Log, turn: Log)
    requires NoOverdraft(turn)
    ensures Remote.PromptUnanswered(earlier + turn)
        <==> Remote.PromptUnanswered(earlier) || Remote.PromptUnanswered(turn)
  {
    var log := earlier + turn;
    NoOverdraftMeansNoCredit(turn);
    forall i: nat | i < |log|
      ensures Remote.UnansweredAt(log, i)
         <==> if i < |earlier| then Remote.UnansweredAt(earlier, i) else Remote.UnansweredAt(turn, i - |earlier|)
    {
      if i < |earlier| {
        assert log[i + 1..] == earlier[i + 1..] + turn;
        NothingToSpare(earlier[i + 1..], turn);
      } else {
        assert log[i + 1..] == turn[i - |earlier| + 1..];
      }
    }
    if i: nat :| Remote.UnansweredAt(earlier, i) {
      assert Remote.UnansweredAt(log, i);
    }
    if i: nat :| Remote.UnansweredAt(turn, i) {
      assert Remote.UnansweredAt(log, |earlier| + i);
    }
  }

  lemma PendingStaysPending(earlier: Log, turn: Log)
    requires PermissionPending(turn)
    ensures PermissionPending(earlier + turn)
  {
    var k :| 0 <= k <= |turn| && PermissionBalance(turn[k..]) > 0;
    assert (earlier + turn)[|earlier| + k..] == turn[k..];
  }

  // The classifiers give the same answer as far as both can give it.
  ghost predicate Agree(log: Log, pid: int) {
    && (Local.Verdict(log).0 == Exited <==> Remote.Verdict(log, pid) == Exited)
    && (Local.Verdict(log).0 == Waiting <==> Remote.Verdict(log, pid) == Waiting)
    && (Local.Verdict(log).0 == Working <==> Remote.Verdict(log, pid) == Working)
  }

  lemma AgreeMeansSameBlocking(log: Log, pid: int)
    ensures Agree(log, pid)
       <==> HasShutdown(log) || (Local.AwaitsUser(CurrentTurn(log)) <==> Remote.AwaitsUser(log))
  {
    if log == [] {
      Local.OutstandingIsCreditShortfall(CurrentTurn(log));
    }
  }

  // Exactly when the classifiers agree, on every log: it has a shutdown, or the current turn asks for
  // the user outright, or else the turn owes an answer to a prompt just if the remote scan finds
  // anything in the whole log: a request, a pending permission or a prompting tool left open.
  lemma ClassifiersAgree(log: Log, pid: int)
    ensures var turn := CurrentTurn(log);
      Agree(log, pid) <==>
        || HasShutdown(log) || HasUserRequest(turn) || PermissionPending(turn)
        || (PromptOwed(turn) <==> HasUserRequest(log) || PermissionPending(log) || PromptLeftOpen(log))
  {
    var earlier, turn := log[..TurnBoundary(log)], CurrentTurn(log);
    assert log == earlier + turn;
    AgreeMeansSameBlocking(log, pid);
    LocalPromptTest(turn);
    RemotePromptTest(log);
    RequestsOfConcat(earlier, turn);
    if PermissionPending(turn) {
      PendingStaysPending(earlier, turn);
    }
  }

  // Earlier turns that leave nothing behind: no prompting tool open, no permission unanswered,
  // nothing asked of the user.
  ghost predicate Settled(log: Log) {
    !PromptLeftOpen(log) && !PermissionPending(log) && !HasUserRequest(log)
  }

  // After settled turns the classifiers differ only over prompts that were opened since the last
  // idle point and have all been closed since.
  lemma SettledTurnsAgree(log: Log, pid: int)
    requires Settled(log[..TurnBoundary(log)]) && NoOverdraft(CurrentTurn(log))
    ensures var turn := CurrentTurn(log);
      Agree(log, pid) <==>
        || HasShutdown(log) || HasUserRequest(turn) || PermissionPending(turn)
        || !PromptSinceIdle(turn) || PromptLeftOpen(turn)
  {
    var earlier, turn := log[..TurnBoundary(log)], CurrentTurn(log);
    assert log == earlier + turn;
    ClassifiersAgree(log, pid);
    PendingOnlyInCurrentTurn(earlier, turn);
    RequestsOfConcat(earlier, turn);
    PromptsByTurn(earlier, turn);
    RemotePromptTest(earlier);
    RemotePromptTest(turn);
    RemotePromptTest(log);
    LocalPromptTest(turn);
    OwedSinceIdle(turn);
    if PromptLeftOpen(turn) {
      RemotePromptImpliesLocal(turn);
    }
  }

  // One tool at a time in the current turn suffices.
  lemma SequentialTurnsAgree(log: Log, pid: int)
    requires Settled(log[..TurnBoundary(log)]) && OneToolAtATime(CurrentTurn(log))
    ensures Agree(log, pid)
  {
    var turn := CurrentTurn(log);
    SequentialCredits(Closed, turn);
    NoOverdraftMeansNoCredit(turn);
    Local.OutstandingIsCreditShortfall(turn);
    LocalPromptTest(turn);
    OwedSinceIdle(turn);
    RemotePromptTest(turn);
    SettledTurnsAgree(log, pid);
  }

  lemma ParallelCounts(a: Event, b: Event, c: Event)
    requires a.kind.ToolStart? && b.kind.ToolStart? && c.kind.ToolComplete?
    ensures ToolSurplus([a, b, c][..0], true) == 0 && ToolSurplus([a, b, c][..1], true) == -1
    ensures ToolSurplus([a, b, c][..2], true) == -2 && ToolSurplus([a, b, c][..3], true) == -1
    ensures OpenStarts([a, b, c]) == [0]
  {
    var none, one: seq<nat> := [], [0];
    assert [a, b, c][..0] == [] && [a, b, c][..1] == [a] && [a, b, c][..2] == [a] + [b]
        && [a, b, c][..3] == [a] + [b] + [c];
    assert [a][1..] == [] && [b][1..] == [] && [c][1..] == [];
    SurplusConcat([a], [b], true);
    SurplusConcat([a] + [b], [c], true);
    assert [a, b, c][1..] == [b, c] && [b, c][1..] == [c];
    assert none + [0] == one && (one + [1])[..1] == one;
    assert OpenAfter(one, [c][1..], 3) == one;
    assert OpenAfter(one + [1], [c], 2) == one;
    assert OpenAfter(one, [b, c], 1) == one;
  }

  lemma {:induction false} NoRequestsNoBalance(log: Log)
    requires forall i :: 0 <= i < |log| ==> !log[i].kind.PermissionRequested?
    ensures PermissionBalance(log) <= 0
  {
    if log != [] {
      NoRequestsNoBalance(log[1..]);
    }
  }

  // Two tools in parallel are enough to make the classifiers disagree: the remote one takes the
  // completion of the plain tool for an answer to the prompt.
  lemma ParallelToolsDisagree(plain: ToolName, prompt: ToolName, pid: int)
    requires !IsUserPromptingTool(plain) && IsUserPromptingTool(prompt)
    ensures var log := [Event(ToolStart(plain), 1), Event(ToolStart(prompt), 2), Event(ToolComplete, 3)];
            !Agree(log, pid) && Local.Verdict(log).0 == Waiting
  {
    var a, b, c := Event(ToolStart(plain), 1), Event(ToolStart(prompt), 2), Event(ToolComplete, 3);
    var log := [a, b, c];
    assert CurrentTurn(log) == log && log[..TurnBoundary(log)] == [];
    ParallelCounts(a, b, c);
    assert PromptSinceIdleAt(log, 1);
    forall k | 0 <= k <= |log| ensures PermissionBalance(log[k..]) <= 0 {
      NoRequestsNoBalance(log[k..]);
    }
    assert Settled([]);
    SettledTurnsAgree(log, pid);
    LocalPromptTest(log);
    OwedSinceIdle(log);
  }
}
