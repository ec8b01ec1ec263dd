/** Finding the port marker in chunked PTY output (internal/codeserver/registry.go). */
module PortScanner {
  import opened Prelude
  import opened Text

  // The marker test on one line, without its newline.
  type Marker = string -> Option<int>

  // The port of the first line that carries the marker.
  function FirstHit(lines: seq<string>, scan: Marker): Option<int> {
    if lines == [] then None
    else if scan(lines[0]).Some? then scan(lines[0])
    else FirstHit(lines[1..], scan)
  }

  function FirstPort(output: string, scan: Marker): Option<int> {
    FirstHit(CompleteLines(output), scan)
  }

  // What is left to scan: the text behind the first marker line, or the open line if there is none.
  function Leftover(output: string, scan: Marker): string
    decreases |output|
  {
    var i := FirstNewline(output);
    if i == |output| then output
    else if scan(output[..i]).Some? then output[i + 1..]
    else Leftover(output[i + 1..], scan)
  }

  lemma {:induction false} LeftoverIsRemainder(output: string, scan: Marker)
    requires FirstPort(output, scan).None?
    ensures Leftover(output, scan) == Remainder(output)
    decreases |output|
  {
    var i := FirstNewline(output);
    if i < |output| {
      FirstHitConcat([output[..i]], CompleteLines(output[i + 1..]), scan);
      assert [output[..i]][1..] == [];
      LeftoverIsRemainder(output[i + 1..], scan);
    }
  }

  // The output that is looked at: what is read while the instance is still active.
  function Kept(chunks: seq<string>, active: seq<bool>): string
    requires |active| == |chunks|
  {
    if chunks == [] then ""
    else
      var n := |chunks| - 1;
      Kept(chunks[..n], active[..n]) + if active[n] then chunks[n] else ""
  }

  lemma KeptNext(a: seq<string>, x: seq<bool>, c: string, z: bool)
    requires |a| == |x|
    ensures Kept(a + [c], x + [z]) == Kept(a, x) + if z then c else ""
  {
    FrontOfAppended(a, c);
    FrontOfAppended(x, z);
  }

  // One read counts entirely or not at all, and the reads that count keep their order.
  lemma {:induction false} KeptConcat(a: seq<string>, x: seq<bool>, b: seq<string>, y: seq<bool>)
    requires |a| == |x| && |b| == |y|
    ensures Kept(a + b, x + y) == Kept(a, x) + Kept(b, y)
    decreases |b|
  {
    if b == [] {
      assert a + b == a && x + y == x;
    } else {
      var n := |b| - 1;
      var front, flags := b[..n], y[..n];
      KeptConcat(a, x, front, flags);
      KeptNext(a + front, x + flags, b[n], y[n]);
      Assoc(a, front, [b[n]]);
      Assoc(x, flags, [y[n]]);
      assert b == front + [b[n]] && y == flags + [y[n]];
      Assoc(Kept(a, x), Kept(front, flags), if y[n] then b[n] else "");
    }
  }

  lemma {:induction false} FirstHitConcat(a: seq<string>, b: seq<string>, scan: Marker)
    ensures FirstHit(a + b, scan) == if FirstHit(a, scan).Some? then FirstHit(a, scan) else FirstHit(b, scan)
  {
    if a == [] {
      assert a + b == b;
    } else {
      assert (a + b)[1..] == a[1..] + b;
      FirstHitConcat(a[1..], b, scan);
    }
  }

  // The first hit is the earliest complete line that carries the marker.
  lemma {:induction false} FirstHitIsEarliest(lines: seq<string>, scan: Marker)
    ensures FirstHit(lines, scan).None? <==> forall i :: 0 <= i < |lines| ==> scan(lines[i]).None?
    ensures FirstHit(lines, scan).Some? ==>
              exists i :: (0 <= i < |lines| && FirstHit(lines, scan) == scan(lines[i])
                           && forall j :: 0 <= j < i ==> scan(lines[j]).None?)
  {
    if lines != [] {
      var rest := lines[1..];
      FirstHitIsEarliest(rest, scan);
      if scan(lines[0]).Some? {
        assert FirstHit(lines, scan) == scan(lines[0]);
      } else if FirstHit(rest, scan).Some? {
        var i :| 0 <= i < |rest| && FirstHit(rest, scan) == scan(rest[i])
                 && (forall j :: 0 <= j < i ==> scan(rest[j]).None?);
        forall j | 0 <= j < i + 1 ensures scan(lines[j]).None? {
          assert j > 0 ==> lines[j] == rest[j - 1];
        }
        assert FirstHit(lines, scan) == scan(lines[i + 1]);
      } else {
        forall j | 0 <= j < |lines| ensures scan(lines[j]).None? {
          assert j > 0 ==> lines[j] == rest[j - 1];
        }
      }
    }
  }

  // One line at the front of the output.
  lemma AtLine(line: string, rest: string, scan: Marker)
    requires OneLine(line)
    ensures var output := line + "\n" + rest;
      && FirstPort(output, scan) == (if scan(line).Some? then scan(line) else FirstPort(rest, scan))
      && Leftover(output, scan) == if scan(line).Some? then rest else Leftover(rest, scan)
  {
    var output := line + "\n" + rest;
    CutFirstLine(line, rest);
    FirstHitConcat([line], CompleteLines(rest), scan);
    assert [line][1..] == [];
    FirstNewlineUnique(output, |line|);
    assert output[..|line|] == line && output[|line| + 1..] == rest;
  }

  lemma RejoinedGrows(first: string, lines: seq<string>, tail: string)
    ensures Rejoined([first] + lines) + tail == first + "\n" + (Rejoined(lines) + tail)
  {
    assert ([first] + lines)[1..] == lines;
    Assoc(first + "\n", Rejoined(lines), tail);
  }

  // What precedes the text left over is the first marker line, behind lines without the marker.
  lemma {:induction false} LeftoverFollowsHit(output: string, scan: Marker) returns (before: seq<string>, line: string)
    requires FirstPort(output, scan).Some?
    ensures output == Rejoined(before) + (line + "\n" + Leftover(output, scan))
    ensures OneLine(line) && scan(line) == FirstPort(output, scan)
    ensures forall i :: 0 <= i < |before| ==> OneLine(before[i]) && scan(before[i]).None?
    decreases |output|
  {
    var first, rest := AtFirstNewline(output);
    AtLine(first, rest, scan);
    if scan(first).Some? {
      before, line := [], first;
    } else {
      var more;
      more, line := LeftoverFollowsHit(rest, scan);
      before := [first] + more;
      RejoinedGrows(first, more, line + "\n" + Leftover(rest, scan));
    }
  }

  // More output never changes a port already found, and is searched from the open line on.
  lemma FirstPortOfConcat(a: string, b: string, scan: Marker)
    ensures FirstPort(a + b, scan) ==
            if FirstPort(a, scan).Some? then FirstPort(a, scan) else FirstPort(Remainder(a) + b, scan)
  {
    LinesOfConcat(a, b);
    FirstHitConcat(CompleteLines(a), CompleteLines(Remainder(a) + b), scan);
  }

  // A line without its newline never triggers, whatever it contains.
  lemma UnterminatedLineNeverTriggers(output: string, tail: string, scan: Marker)
    requires OneLine(tail)
    ensures FirstPort(output + tail, scan) == FirstPort(output, scan)
  {
    FirstPortOfConcat(output, tail, scan);
    var open := Remainder(output) + tail;
    RemainderHasNoNewline(output);
    assert forall j :: 0 <= j < |Remainder(output)| ==> open[j] == Remainder(output)[j];
    assert forall j :: 0 <= j < |tail| ==> open[|Remainder(output)| + j] == tail[j];
    assert OneLine(open);
  }

  /** The scanning half of the output-reading goroutine. */
  class LineScanner {
    var pending: string

    constructor ()
      ensures pending == ""
    {
      pending := "";
    }

    // Scan the pending bytes line by line, stopping just after the first marker line.
    method ConsumeLines(scan: Marker) returns (port: Option<int>)
      modifies this
      ensures port == FirstPort(old(pending), scan)
      ensures pending == Leftover(old(pending), scan)
    {
      while true
        invariant FirstPort(pending, scan) == FirstPort(old(pending), scan)
        invariant Leftover(pending, scan) == Leftover(old(pending), scan)
        decreases |pending|
      {
        var idx := FirstNewline(pending);
        if idx == |pending| {
          return None;
        }
        var line := pending[..idx];
        FirstHitConcat([line], CompleteLines(pending[idx + 1..]), scan);
        assert [line][1..] == [];
        pending := pending[idx + 1..];
        if scan(line).Some? {
          return scan(line);
        }
      }
    }

    // The read loop: active[i] is what isActive answers when chunks[i] has been read. Every port
    // found is reported; the instance asks for the first at most.
    method ReadLoop(chunks: seq<string>, active: seq<bool>, scan: Marker) returns (reported: seq<int>)
      requires |active| == |chunks| && pending == ""
      modifies this
      ensures First(reported) == FirstPort(Kept(chunks, active), scan)
    {
      reported := [];
      for i := 0 to |chunks|
        invariant First(reported) == FirstPort(Kept(chunks[..i], active[..i]), scan)
        invariant reported == [] ==> pending == Remainder(Kept(chunks[..i], active[..i]))
      {
        ghost var seen := Kept(chunks[..i], active[..i]);
        assert chunks[..i + 1][..i] == chunks[..i] && active[..i + 1][..i] == active[..i];
        assert seen + "" == seen;
        if active[i] {
          FirstPortOfConcat(seen, chunks[i], scan);
          LinesOfConcat(seen, chunks[i]);
          pending := pending + chunks[i];
          ghost var scanned := pending;
          var port := ConsumeLines(scan);
          if port.None? {
            LeftoverIsRemainder(scanned, scan);
          } else {
            reported := reported + [port.value];
          }
        }
      }
      assert chunks[..|chunks|] == chunks && active[..|active|] == active;
    }
  }

  function First(ports: seq<int>): Option<int> {
    if ports == [] then None else Some(ports[0])
  }
}
