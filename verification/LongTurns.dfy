/**
 The tail read of a turn that is longer than the window (internal/sessions/statedir.go): the window
 holds no turn_end, so the part of the turn before it counts as well.
 */
module LongTurns {
  import opened Prelude
  import opened EventLog
  import opened ClassifierAgreement
  import opened TailWindow
  import Local = LocalClassifier

  lemma TurnReachesBack(dropped: Log, window: Log)
    requires !HasTurnEnd(window)
    ensures CurrentTurn(dropped + window) == CurrentTurn(dropped) + window
  {
    var log, b := dropped + window, TurnBoundary(dropped + window);
    assert forall i :: |dropped| <= i < |log| ==> log[i] == window[i - |dropped|];
    assert forall i :: 0 <= i < |dropped| ==> log[i] == dropped[i];
    assert b <= |dropped|;
    assert b == TurnBoundary(dropped);
  }

  // The prompts of an earlier and a later part of a turn, taken together, are still to be answered.
  predicate PromptsShort(earlier: Log, later: Log) {
    && PromptingStarts(earlier) + PromptingStarts(later) > ToolCredit(earlier, false)
    && PromptingStarts(later) - ToolCredit(later, false) > ToolSurplus(earlier, true)
  }

  lemma OutstandingAcross(earlier: Log, later: Log)
    ensures Local.PromptOutstanding(earlier + later) <==> PromptsShort(earlier, later)
  {
    Local.OutstandingIsCreditShortfall(earlier + later);
    StartsConcat(earlier, later);
    CreditOfConcat(earlier, later, false);
    SurplusDifference(earlier);
  }

  lemma NoOverdraftBoundsCredit(turn: Log)
    requires NoOverdraft(turn)
    ensures ToolCredit(turn, false) <= PromptingStarts(turn) && ToolSurplus(turn, true) <= 0
  {
    CreditIsGreatestPrefixSurplus(turn, false);
    var k :| 0 <= k <= |turn| && ToolSurplus(turn[..k], false) == ToolCredit(turn, false);
    SurplusDifference(turn[..k]);
    assert turn == turn[..k] + turn[k..] && turn[..|turn|] == turn;
    StartsConcat(turn[..k], turn[k..]);
  }

  // A prompt still to be answered in the window decides the whole log, unless the dropped part of
  // the turn completes more tools than it starts or a shutdown has been dropped.
  lemma OwedPromptDecides(dropped: Log, window: Log)
    requires !HasTurnEnd(window) && NoOverdraft(CurrentTurn(dropped)) && Local.PromptOutstanding(window)
    ensures Local.Verdict(dropped + window) == Local.Verdict(window)
       <==> HasShutdown(window) || !HasShutdown(dropped)
  {
    var earlier := CurrentTurn(dropped);
    ShutdownsOfConcat(dropped, window);
    TurnReachesBack(dropped, window);
    assert TurnBoundary(window) == 0 && CurrentTurn(window) == window;
    Local.OutstandingIsCreditShortfall(window);
    NoOverdraftBoundsCredit(earlier);
    OutstandingAcross(earlier, window);
  }

  // Permissions that a part of a turn asks for and neither it nor the rest of the turn answers.
  ghost predicate PermissionLeft(earlier: Log, later: Log) {
    exists k :: 0 <= k <= |earlier| && PermissionBalance(earlier[k..]) + PermissionBalance(later) > 0
  }

  lemma PendingAcross(earlier: Log, later: Log)
    ensures PermissionPending(earlier + later) <==> PermissionLeft(earlier, later) || PermissionPending(later)
  {
    var turn := earlier + later;
    forall k | 0 <= k <= |earlier|
      ensures PermissionBalance(turn[k..]) == PermissionBalance(earlier[k..]) + PermissionBalance(later)
    {
      assert turn[k..] == earlier[k..] + later;
      BalanceConcat(earlier[k..], later);
    }
    forall k | 0 <= k <= |later| ensures turn[|earlier| + k..] == later[k..] {}
    if PermissionPending(turn) {
      var k :| 0 <= k <= |turn| && PermissionBalance(turn[k..]) > 0;
      if k > |earlier| {
        assert turn[|earlier| + (k - |earlier|)..] == later[k - |earlier|..];
      }
    }
    if k :| 0 <= k <= |later| && PermissionBalance(later[k..]) > 0 {
      assert PermissionBalance(turn[|earlier| + k..]) > 0;
    }
  }

  // The stamps put the whole log in the middle of a turn.
  predicate MidTurnAcross(dropped: Log, start: int) {
    start != 0 && start > LastEnd(dropped)
  }

  lemma {:induction false} EndsWithout(a: Log, b: Log)
    requires !HasTurnEnd(b)
    ensures LastEnd(a + b) == LastEnd(a) && LastEnd(b) == 0
  {
    if b == [] {
      assert a + b == a;
    } else {
      var n := |b| - 1;
      assert (a + b)[..|a| + n] == a + b[..n] && (a + b)[|a| + n] == b[n];
      assert !b[n].kind.TurnEnd?;
      forall i | 0 <= i < n ensures !b[..n][i].kind.TurnEnd? {
        assert b[..n][i] == b[i];
      }
      EndsWithout(a, b[..n]);
    }
  }

  // The window alone has prompts still to be answered.
  predicate WindowShort(window: Log) {
    PromptingStarts(window) > ToolCredit(window, false)
  }

  // The dropped part of the turn is enough to block it, or both parts together owe an answer.
  ghost predicate BlockedAcross(earlier: Log, window: Log) {
    HasUserRequest(earlier) || PermissionLeft(earlier, window) || PromptsShort(earlier, window)
  }

  // A request or pending permission in the window decides; otherwise both parts of the turn must be
  // blocked just when the window is, and if they are not, the stamps must agree.
  ghost predicate TurnDecides(dropped: Log, window: Log) {
    var start := if HasTurnStart(window) then LastStart(window) else LastStart(dropped);
    || HasUserRequest(window) || PermissionPending(window)
    || (WindowShort(window) && BlockedAcross(CurrentTurn(dropped), window))
    || (!WindowShort(window) && !BlockedAcross(CurrentTurn(dropped), window)
        && (MidTurnAcross(dropped, start) <==> LastStart(window) > 0))
  }

  // A shutdown comes before all of that.
  ghost predicate WindowDecides(dropped: Log, window: Log) {
    HasShutdown(window) || (!HasShutdown(dropped) && TurnDecides(dropped, window))
  }

  // Exactly when a window without a turn_end gives the verdict of the whole log.
  lemma OpenWindowVerdict(dropped: Log, window: Log)
    requires !HasTurnEnd(window)
    ensures Local.Verdict(dropped + window) == Local.Verdict(window) <==> WindowDecides(dropped, window)
  {
    var earlier := CurrentTurn(dropped);
    ShutdownsOfConcat(dropped, window);
    TurnReachesBack(dropped, window);
    assert TurnBoundary(window) == 0 && CurrentTurn(window) == window;
    Local.OutstandingIsCreditShortfall(window);
    OutstandingAcross(earlier, window);
    PendingAcross(earlier, window);
    RequestsOfConcat(earlier, window);
    EndsWithout(dropped, window);
    StampsOfConcat(dropped, window);
  }

  lemma OneEventTurn(e: Event)
    requires !e.kind.TurnEnd? && !e.kind.TurnStart?
    ensures CurrentTurn([e]) == [e] && LastStart([e]) == 0
    ensures PromptingStarts([e]) == if IsPromptingStart(e) then 1 else 0
    ensures ToolCredit([e], false) == Max(0, ToolDelta(e, false)) && ToolSurplus([e], true) == ToolDelta(e, true)
  {
    assert [e][1..] == [] && [e][..0] == [];
  }

  lemma NothingPending(e: Event)
    requires !e.kind.PermissionRequested?
    ensures !PermissionPending([e])
  {
    forall k | 0 <= k <= |[e]| ensures PermissionBalance([e][k..]) <= 0 {
      NoRequestsNoBalance([e][k..]);
    }
  }

  // A prompt that has dropped out of the window is forgotten.
  lemma DroppedPromptMisleads(prompt: ToolName)
    requires IsUserPromptingTool(prompt)
    ensures var dropped, window := [Event(ToolStart(prompt), 1)], [Event(Other, 2)];
      Local.Verdict(dropped + window) == (Waiting, false) && Local.Verdict(window) == (Unknown, true)
  {
    var a, b := Event(ToolStart(prompt), 1), Event(Other, 2);
    OneEventTurn(a);
    OneEventTurn(b);
    NothingPending(b);
    Local.OutstandingIsCreditShortfall([b]);
    TurnReachesBack([a], [b]);
    OutstandingAcross([a], [b]);
  }

  // The same of the bounded tail read, dropped being what it leaves out.
  lemma LongTurnReadAgreesIff(content: string, window: nat, parse: LineParser) returns (dropped: Log)
    requires TailEvents(Some(content), window, parse).Some?
    requires !HasTurnEnd(TailEvents(Some(content), window, parse).value)
    ensures AllEvents(content, parse) == dropped + TailEvents(Some(content), window, parse).value
    ensures Local.Verdict(TailEvents(Some(content), window, parse).value) == Local.Verdict(AllEvents(content, parse))
       <==> WindowDecides(dropped, TailEvents(Some(content), window, parse).value)
  {
    dropped := TailIsSuffix(content, window, parse);
    OpenWindowVerdict(dropped, TailEvents(Some(content), window, parse).value);
  }
}
