/** Lines of text and the string tests of the Go standard library that the models use. */
module Text {
  import opened Prelude

  // Index of the first newline, or |s|.
  function FirstNewline(s: string): (i: nat)
    ensures i <= |s|
    ensures i < |s| ==> s[i] == '\n'
    ensures forall j :: 0 <= j < i ==> s[j] != '\n'
  {
    if s == [] || s[0] == '\n' then 0 else 1 + FirstNewline(s[1..])
  }

  // The lines that end in a newline, without it.
  function CompleteLines(s: string): seq<string>
    decreases |s|
  {
    var i := FirstNewline(s);
    if i == |s| then [] else [s[..i]] + CompleteLines(s[i + 1..])
  }

  // What follows the last newline.
  function Remainder(s: string): string
    decreases |s|
  {
    var i := FirstNewline(s);
    if i == |s| then s else Remainder(s[i + 1..])
  }

  // bytes.Split(s, "\n")
  function Split(s: string): seq<string> {
    CompleteLines(s) + [Remainder(s)]
  }

  lemma FirstNewlineUnique(s: string, i: nat)
    requires i < |s| && s[i] == '\n'
    requires forall j :: 0 <= j < i ==> s[j] != '\n'
    ensures FirstNewline(s) == i
  {
    var k := FirstNewline(s);
    assert !(k < i) && !(i < k);
  }

  predicate OneLine(s: string) {
    FirstNewline(s) == |s|
  }

  lemma CutFirstLine(line: string, rest: string)
    requires OneLine(line)
    ensures CompleteLines(line + "\n" + rest) == [line] + CompleteLines(rest)
    ensures Remainder(line + "\n" + rest) == Remainder(rest)
  {
    var s := line + "\n" + rest;
    FirstNewlineUnique(s, |line|);
    assert s[..|line|] == line && s[|line| + 1..] == rest;
  }

  lemma AtFirstNewline(a: string) returns (line: string, rest: string)
    requires !OneLine(a)
    ensures OneLine(line) && a == line + "\n" + rest
    ensures CompleteLines(a) == [line] + CompleteLines(rest) && Remainder(a) == Remainder(rest)
  {
    var i := FirstNewline(a);
    line, rest := a[..i], a[i + 1..];
    assert a == line + "\n" + rest;
  }

  lemma PrependLine(line: string, rest: string, b: string)
    requires OneLine(line)
    requires CompleteLines(rest + b) == CompleteLines(rest) + CompleteLines(Remainder(rest) + b)
    ensures CompleteLines(line + "\n" + rest + b) == [line] + CompleteLines(rest) + CompleteLines(Remainder(rest) + b)
    ensures Remainder(line + "\n" + rest + b) == Remainder(rest + b)
  {
    Assoc(line + "\n", rest, b);
    CutFirstLine(line, rest + b);
    Assoc([line], CompleteLines(rest), CompleteLines(Remainder(rest) + b));
  }

  // Lines of a concatenation: those of the front, then those of what the front left open.
  lemma {:induction false} LinesOfConcat(a: string, b: string)
    ensures CompleteLines(a + b) == CompleteLines(a) + CompleteLines(Remainder(a) + b)
    ensures Remainder(a + b) == Remainder(Remainder(a) + b)
    decreases |a|
  {
    if OneLine(a) {
      assert [] + CompleteLines(a + b) == CompleteLines(a + b);
    } else {
      var line, rest := AtFirstNewline(a);
      LinesOfConcat(rest, b);
      PrependLine(line, rest, b);
    }
  }

  lemma {:induction false} RemainderHasNoNewline(s: string)
    ensures OneLine(Remainder(s))
    decreases |s|
  {
    var i := FirstNewline(s);
    if i < |s| {
      RemainderHasNoNewline(s[i + 1..]);
    }
  }

  lemma SplitAtNewline(a: string, b: string)
    ensures Split(a + "\n" + b) == Split(a) + Split(b)
  {
    var open := Remainder(a);
    calc {
      Split(a + "\n" + b);
      { assert a + "\n" + b == a + ("\n" + b); LinesOfConcat(a, "\n" + b); }
      CompleteLines(a) + CompleteLines(open + ("\n" + b)) + [Remainder(open + ("\n" + b))];
      { RemainderHasNoNewline(a); assert open + ("\n" + b) == open + "\n" + b; CutFirstLine(open, b); }
      CompleteLines(a) + ([open] + CompleteLines(b)) + [Remainder(b)];
      Split(a) + Split(b);
    }
  }

  // The lines with their newlines put back.
  function Rejoined(lines: seq<string>): string {
    if lines == [] then "" else lines[0] + "\n" + Rejoined(lines[1..])
  }

  // Lines hold no newline, and together with what follows the last one they are the text.
  lemma {:induction false} LinesRebuild(s: string)
    ensures s == Rejoined(CompleteLines(s)) + Remainder(s)
    ensures '\n' !in Remainder(s) && forall i :: 0 <= i < |CompleteLines(s)| ==> '\n' !in CompleteLines(s)[i]
    decreases |s|
  {
    if OneLine(s) {
      assert CompleteLines(s) == [] && "" + s == s;
    } else {
      var line, rest := AtFirstNewline(s);
      LinesRebuild(rest);
      var lines := [line] + CompleteLines(rest);
      assert lines[1..] == CompleteLines(rest);
      Assoc(line + "\n", Rejoined(CompleteLines(rest)), Remainder(rest));
    }
  }

  predicate HasSuffix(s: string, suffix: string) {
    |suffix| <= |s| && s[|s| - |suffix|..] == suffix
  }

  predicate Contains(s: string, sub: string) {
    exists i, j :: 0 <= i <= j <= |s| && s[i..j] == sub
  }
}
