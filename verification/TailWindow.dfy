/** The bounded tail read of events.jsonl (internal/sessions/statedir.go). */
module TailWindow {
  import opened Prelude
  import opened EventLog
  import opened Text
  import Local = LocalClassifier

  // How many bytes at the end of a log file are looked at.
  const WINDOW: nat := 64 * 1024

  // One line to at most one event; blank and malformed lines give none.
  type LineParser = string -> Option<Event>

  function ParseLines(lines: seq<string>, parse: LineParser): Log {
    if lines == [] then []
    else (match parse(lines[0]) case Some(e) => [e] case None => []) + ParseLines(lines[1..], parse)
  }

  // Every event of the whole file.
  function AllEvents(content: string, parse: LineParser): Log {
    ParseLines(Split(content), parse)
  }

  // The bytes that are looked at: the last window bytes without a first line that may be partial.
  function TailText(content: string, window: nat): Option<string> {
    if |content| <= window then Some(content)
    else
      var buf := content[|content| - window..];
      var i := FirstNewline(buf);
      if i < |buf| then Some(buf[i + 1..]) else None
  }

  // A file that fits is looked at entirely. Of a longer one everything is, behind the first newline of
  // the window, so no line that starts behind a newline of the window is skipped; one that starts
  // with the window itself is. Without a newline in the window nothing is.
  lemma TailTextMeans(content: string, window: nat, p: nat)
    ensures |content| <= window ==> TailText(content, window) == Some(content)
    ensures |content| > window ==>
              (TailText(content, window).None? <==> '\n' !in content[|content| - window..])
    ensures |content| > window && |content| - window <= p < |content| && content[p] == '\n'
            && (forall q :: |content| - window <= q < p ==> content[q] != '\n') ==>
              TailText(content, window) == Some(content[p + 1..])
  {
    if |content| > window {
      var off := |content| - window;
      var buf := content[off..];
      var i := FirstNewline(buf);
      assert forall k :: 0 <= k < |buf| ==> buf[k] == content[off + k];
      if i < |buf| {
        assert content[off + i] == '\n' && buf[i + 1..] == content[off + i + 1..];
      }
    }
  }

  // A line gives its event, in its place, or nothing.
  lemma ParseLinesMeans(front: seq<string>, line: string, parse: LineParser)
    ensures parse(line).Some? ==> ParseLines(front + [line], parse) == ParseLines(front, parse) + [parse(line).value]
    ensures parse(line).None? ==> ParseLines(front + [line], parse) == ParseLines(front, parse)
  {
    ParseLinesConcat(front, [line], parse);
    assert [line][1..] == [];
    assert ParseLines(front, parse) + [] == ParseLines(front, parse);
  }

  lemma {:induction false} ParseLinesConcat(a: seq<string>, b: seq<string>, parse: LineParser)
    ensures ParseLines(a + b, parse) == ParseLines(a, parse) + ParseLines(b, parse)
  {
    if a == [] {
      assert a + b == b;
    } else {
      assert (a + b)[1..] == a[1..] + b;
      ParseLinesConcat(a[1..], b, parse);
    }
  }

  // None when the file is absent or empty, or the window holds no complete event.
  function TailEvents(file: Option<string>, window: nat, parse: LineParser): Option<Log> {
    if file.None? || file.value == "" || TailText(file.value, window).None? then None
    else
      var all := AllEvents(TailText(file.value, window).value, parse);
      if all == [] then None else Some(all)
  }

  method ParseEach(lines: seq<string>, parse: LineParser) returns (out: Log)
    ensures out == ParseLines(lines, parse)
  {
    out := [];
    for j := 0 to |lines|
      invariant out == ParseLines(lines[..j], parse)
    {
      assert lines[..j + 1] == lines[..j] + [lines[j]];
      ParseLinesConcat(lines[..j], [lines[j]], parse);
      assert [lines[j]][1..] == [];
      match parse(lines[j]) {
        case Some(e) => out := out + [e];
        case None =>
      }
    }
    assert lines[..|lines|] == lines;
  }

  method ReadTail(content: string) returns (text: Option<string>)
    ensures text == TailText(content, 65536)
  {
    var off := if |content| > WINDOW then |content| - WINDOW else 0;
    var buf := content[off..];
    if off > 0 {
      var i := FirstNewline(buf);
      if i == |buf| {
        return None;
      }
      buf := buf[i + 1..];
    }
    return Some(buf);
  }

  method TailRecentEvents(file: Option<string>, parse: LineParser) returns (evs: Option<Log>)
    ensures evs == TailEvents(file, 65536, parse)
    ensures evs.None? <==>
            || file.None? || file.value == "" || TailText(file.value, 65536).None?
            || ParseLines(Split(TailText(file.value, 65536).value), parse) == []
    ensures evs.Some? ==> evs.value == ParseLines(Split(TailText(file.value, 65536).value), parse)
  {
    if file.None? || |file.value| == 0 {
      return None;
    }
    var text := ReadTail(file.value);
    if text.None? {
      return None;
    }
    var out := ParseEach(Split(text.value), parse);
    evs := if |out| == 0 then None else Some(out);
  }

  // A cut window starts right after a newline of the file.
  lemma TailTextFollowsNewline(content: string, window: nat) returns (head: string)
    requires |content| > window && TailText(content, window).Some?
    ensures content == head + "\n" + TailText(content, window).value
  {
    var off := |content| - window;
    var i := FirstNewline(content[off..]);
    head := content[..off + i];
    assert content[off..][i + 1..] == content[off + i + 1..];
  }

  lemma EventsAtNewline(head: string, rest: string, parse: LineParser)
    ensures AllEvents(head + "\n" + rest, parse) == ParseLines(Split(head), parse) + AllEvents(rest, parse)
  {
    SplitAtNewline(head, rest);
    ParseLinesConcat(Split(head), Split(rest), parse);
  }

  // What the tail read returns is always a suffix of the full event log.
  lemma TailIsSuffix(content: string, window: nat, parse: LineParser) returns (dropped: Log)
    requires TailEvents(Some(content), window, parse).Some?
    ensures AllEvents(content, parse) == dropped + TailEvents(Some(content), window, parse).value
    ensures |content| <= window ==> dropped == []
  {
    if |content| <= window {
      dropped := [];
    } else {
      var head := TailTextFollowsNewline(content, window);
      EventsAtNewline(head, TailText(content, window).value, parse);
      dropped := ParseLines(Split(head), parse);
    }
  }

  ghost predicate NonDecreasing(log: Log) {
    forall i, j :: 0 <= i < j < |log| ==> log[i].ts <= log[j].ts
  }

  ghost predicate HasTurnStart(log: Log) {
    exists i :: 0 <= i < |log| && log[i].kind.TurnStart?
  }

  // A dropped turn_start stamped later than the last turn_end that is still in the window.
  ghost predicate StaleStart(dropped: Log, window: Log) {
    !HasTurnStart(window) && LastStart(dropped) != 0 && LastStart(dropped) > LastEnd(window)
  }

  lemma {:induction false} StampsOfConcat(a: Log, b: Log)
    ensures HasTurnStart(b) ==> LastStart(a + b) == LastStart(b)
    ensures !HasTurnStart(b) ==> LastStart(a + b) == LastStart(a) && LastStart(b) == 0
    ensures HasTurnEnd(b) ==> LastEnd(a + b) == LastEnd(b)
  {
    if b == [] {
      assert a + b == a;
    } else {
      var n := |b| - 1;
      assert (a + b)[..|a| + n] == a + b[..n];
      assert b[n] == (a + b)[|a| + n];
      StampsOfConcat(a, b[..n]);
      if HasTurnStart(b) && !b[n].kind.TurnStart? {
        var i :| 0 <= i < |b| && b[i].kind.TurnStart?;
        assert b[..n][i].kind.TurnStart?;
      }
      if HasTurnEnd(b) && !b[n].kind.TurnEnd? {
        var i :| 0 <= i < |b| && b[i].kind.TurnEnd?;
        assert b[..n][i].kind.TurnEnd?;
      }
      assert forall i :: 0 <= i < n ==> b[..n][i] == b[i];
    }
  }

  lemma {:induction false} LastStartOccurs(log: Log)
    ensures LastStart(log) == 0 || exists i :: 0 <= i < |log| && log[i].ts == LastStart(log)
  {
    if log != [] {
      var n := |log| - 1;
      LastStartOccurs(log[..n]);
      if !log[n].kind.TurnStart? && LastStart(log) != 0 {
        var i :| 0 <= i < n && log[..n][i].ts == LastStart(log[..n]);
        assert log[i].ts == LastStart(log);
      } else if log[n].kind.TurnStart? {
        assert log[n].ts == LastStart(log);
      }
    }
  }

  lemma SameCurrentTurn(dropped: Log, window: Log)
    requires HasTurnEnd(window)
    ensures CurrentTurn(dropped + window) == CurrentTurn(window)
  {
    var log := dropped + window;
    var b, w := TurnBoundary(log), TurnBoundary(window);
    assert w > 0;
    assert forall k :: 0 <= k < |window| ==> log[|dropped| + k] == window[k];
    assert log[|dropped| + (w - 1)].kind.TurnEnd?;
    assert b >= |dropped| + w;
    assert b == |dropped| + w;
  }

  // Exactly when a window that contains a turn_end gives the verdict of the whole log: unless
  // nothing in the window decides and a dropped turn_start is later than its last turn_end, or a
  // shutdown has been dropped.
  lemma WindowVerdict(dropped: Log, window: Log)
    requires HasTurnEnd(window)
    ensures Local.Verdict(dropped + window) == Local.Verdict(window) <==>
            || HasShutdown(window)
            || (!HasShutdown(dropped) && (Local.AwaitsUser(CurrentTurn(window)) || !StaleStart(dropped, window)))
  {
    var log := dropped + window;
    SameCurrentTurn(dropped, window);
    StampsOfConcat(dropped, window);
    ShutdownsOfConcat(dropped, window);
  }

  // A dropped turn_start at 10 before a turn_end stamped 5 is enough to be misread.
  lemma StaleStartMisleads()
    ensures var dropped, window := [Event(TurnStart, 10)], [Event(TurnEnd, 5)];
      Local.Verdict(dropped + window) == (Working, false) && Local.Verdict(window) == (Unknown, true)
  {
    var dropped, window := [Event(TurnStart, 10)], [Event(TurnEnd, 5)];
    assert window[0].kind.TurnEnd? && CurrentTurn(window) == [];
    assert dropped[..0] == [] && window[..0] == [];
    Local.OutstandingIsCreditShortfall([]);
    WindowVerdict(dropped, window);
    StampsOfConcat(dropped, window);
    SameCurrentTurn(dropped, window);
  }

  // A request or a pending permission in a window without a turn_end decides the whole log, unless
  // a shutdown has been dropped.
  lemma RequestDecides(dropped: Log, window: Log)
    requires !HasTurnEnd(window) && (HasUserRequest(window) || PermissionPending(window))
    ensures Local.Verdict(dropped + window) == Local.Verdict(window)
       <==> HasShutdown(window) || !HasShutdown(dropped)
  {
    var log := dropped + window;
    ShutdownsOfConcat(dropped, window);
    var b := TurnBoundary(log);
    assert TurnBoundary(window) == 0 && CurrentTurn(window) == window;
    assert forall j :: |dropped| <= j < |log| ==> log[j] == window[j - |dropped|];
    assert b <= |dropped|;
    assert log[|dropped|..] == window;
    Local.BlockedReadBlocksTurn(log, |dropped|);
  }

  lemma NoStaleStart(dropped: Log, window: Log)
    requires HasTurnEnd(window) && NonDecreasing(dropped + window)
    ensures !StaleStart(dropped, window)
  {
    var log := dropped + window;
    LastStartOccurs(dropped);
    LastEndOccurs(window);
    if LastStart(dropped) != 0 {
      var i :| 0 <= i < |dropped| && dropped[i].ts == LastStart(dropped);
      var j :| 0 <= j < |window| && window[j].ts == LastEnd(window);
      assert log[i].ts <= log[|dropped| + j].ts;
    }
  }

  lemma {:induction false} LastEndOccurs(log: Log)
    requires HasTurnEnd(log)
    ensures exists i :: 0 <= i < |log| && log[i].ts == LastEnd(log)
  {
    var n := |log| - 1;
    if log[n].kind.TurnEnd? {
      assert log[n].ts == LastEnd(log);
    } else {
      var k :| 0 <= k < |log| && log[k].kind.TurnEnd?;
      assert log[..n][k].kind.TurnEnd?;
      LastEndOccurs(log[..n]);
      var i :| 0 <= i < n && log[..n][i].ts == LastEnd(log[..n]);
      assert log[i].ts == LastEnd(log);
    }
  }

  // The bounded tail read classifies like a full read of the file, unless a shutdown is out of sight.
  lemma TailReadAgrees(content: string, window: nat, parse: LineParser)
    requires TailEvents(Some(content), window, parse).Some?
    requires HasTurnEnd(TailEvents(Some(content), window, parse).value)
    requires NonDecreasing(AllEvents(content, parse))
    ensures Local.Verdict(TailEvents(Some(content), window, parse).value) == Local.Verdict(AllEvents(content, parse))
       <==> HasShutdown(TailEvents(Some(content), window, parse).value) || !HasShutdown(AllEvents(content, parse))
  {
    var dropped := TailIsSuffix(content, window, parse);
    var tail := TailEvents(Some(content), window, parse).value;
    ShutdownsOfConcat(dropped, tail);
    NoStaleStart(dropped, tail);
    WindowVerdict(dropped, tail);
  }

  // So does a request in the tail of a turn that is longer than the window.
  lemma TailRequestDecides(content: string, window: nat, parse: LineParser)
    requires TailEvents(Some(content), window, parse).Some?
    requires var tail := TailEvents(Some(content), window, parse).value;
      !HasTurnEnd(tail) && (HasUserRequest(tail) || PermissionPending(tail))
    ensures Local.Verdict(TailEvents(Some(content), window, parse).value) == Local.Verdict(AllEvents(content, parse))
       <==> HasShutdown(TailEvents(Some(content), window, parse).value) || !HasShutdown(AllEvents(content, parse))
  {
    var dropped := TailIsSuffix(content, window, parse);
    var tail := TailEvents(Some(content), window, parse).value;
    ShutdownsOfConcat(dropped, tail);
    RequestDecides(dropped, tail);
  }
}
