/**
 How the other login shells that tsession meets read its quoting (internal/shellutil/shellutil.go).
 fish, after its own documentation (section Quotes of "The fish language"), takes a backslash before
 a backslash or a single quote for an escape even between single quotes. csh and tcsh, after tcsh(1)
 (sections "Lexical structure" and "History substitution"), do not let a line end between quotes and
 substitute history there, unless the exclamation mark comes behind a backslash, which is dropped, or
 before a blank, a tab, an equals sign or a parenthesis. Unquoted characters other than
 those of plain words, and history, have no meaning here: the reader gets stuck on them.
 */
module OtherShells {
  import opened Prelude
  import opened ShellQuote

  datatype Dialect = Fish | Csh

  // SingleEscape and Bang have read a backslash or an exclamation mark between quotes.
  datatype Mode =
    | Between
    | Bare(word: string)
    | BareEscape(word: string)
    | Single(word: string)
    | SingleEscape(word: string)
    | Bang(word: string)
    | Stuck

  datatype Reader = Reader(words: seq<string>, mode: Mode)

  predicate IsLiteral(c: char) {
    'a' <= c <= 'z' || 'A' <= c <= 'Z' || '0' <= c <= '9' || c == '/' || c == '-' || c == '_' || c == '.'
  }

  predicate KeepsBang(c: char) {
    c == ' ' || c == '\t' || c == '=' || c == '('
  }

  // An unquoted character.
  function StepBare(w: string, c: char): Mode {
    if c == '\'' then Single(w)
    else if c == '\\' then BareEscape(w)
    else if IsLiteral(c) then Bare(w + [c])
    else Stuck
  }

  function StepSingle(d: Dialect, w: string, c: char): Mode {
    if c == '\'' then Bare(w)
    else if c == '\\' then SingleEscape(w)
    else if d == Csh && c == '\n' then Stuck
    else if d == Csh && c == '!' then Bang(w)
    else Single(w + [c])
  }

  function StepEscape(d: Dialect, w: string, c: char): Mode {
    if d == Fish then
      if c == '\'' || c == '\\' then Single(w + [c]) else Single(w + ['\\'] + [c])
    else if c == '!' then Single(w + [c])
    else StepSingle(d, w + ['\\'], c)
  }

  function Step(d: Dialect, r: Reader, c: char): Reader {
    match r.mode
    case Between => if c == ' ' then r else Reader(r.words, StepBare("", c))
    case Bare(w) => if c == ' ' then Reader(r.words + [w], Between) else Reader(r.words, StepBare(w, c))
    case BareEscape(w) => Reader(r.words, if c == '\'' || c == '\\' then Bare(w + [c]) else Stuck)
    case Single(w) => Reader(r.words, StepSingle(d, w, c))
    case SingleEscape(w) => Reader(r.words, StepEscape(d, w, c))
    case Bang(w) => Reader(r.words, if KeepsBang(c) then Single(w + ['!'] + [c]) else Stuck)
    case Stuck => r
  }

  function Read(d: Dialect, r: Reader, s: string): Reader
    decreases |s|
  {
    if s == "" then r else Read(d, Step(d, r, s[0]), s[1..])
  }

  function Finish(r: Reader): Option<seq<string>> {
    match r.mode
    case Between => Some(r.words)
    case Bare(w) => Some(r.words + [w])
    case _ => None
  }

  const START := Reader([], Between)

  function Words(d: Dialect, line: string): Option<seq<string>> {
    Finish(Read(d, START, line))
  }

  // What character i of a quoted string must not be, for the shell to read it as it is.
  predicate SafeAt(d: Dialect, s: string, i: nat)
    requires i < |s|
  {
    if d == Fish then
      s[i] == '\\' ==> i + 1 < |s| && s[i + 1] != '\\' && s[i + 1] != '\''
    else
      && s[i] != '\n'
      && (s[i] == '!' ==> i + 1 < |s| && KeepsBang(s[i + 1]))
      && (s[i] == '\\' && i + 1 < |s| ==> s[i + 1] != '!')
  }

  // fish: no backslash before a backslash or a single quote, and none at the end. csh: no newline,
  // no backslash before an exclamation mark, and only ones that begin no history substitution.
  ghost predicate Safe(d: Dialect, s: string) {
    forall i :: 0 <= i < |s| ==> SafeAt(d, s, i)
  }

  lemma {:induction false} ReadConcat(d: Dialect, r: Reader, a: string, b: string)
    ensures Read(d, r, a + b) == Read(d, Read(d, r, a), b)
    decreases |a|
  {
    if a == "" {
      assert a + b == b;
    } else {
      assert (a + b)[1..] == a[1..] + b;
      ReadConcat(d, Step(d, r, a[0]), a[1..], b);
    }
  }

  lemma ReadOne(d: Dialect, r: Reader, c: char)
    ensures Read(d, r, [c]) == Step(d, r, c)
  {
    assert [c][1..] == "";
  }

  // How the way of writing a quote inside quotes is read, step by step.
  lemma ReadEscape(d: Dialect, r: Reader)
    ensures Read(d, r, CLOSE_ESCAPE_REOPEN) == Step(d, Step(d, Step(d, Step(d, r, '\''), '\\'), '\''), '\'')
  {
    var e := CLOSE_ESCAPE_REOPEN;
    assert e[1..][0] == '\\' && e[1..][1..][0] == '\'' && e[1..][1..][1..] == ['\''];
    var r3 := Step(d, Step(d, Step(d, r, e[0]), e[1..][0]), e[1..][1..][0]);
    assert Read(d, r, e) == Read(d, r3, ['\'']);
    ReadOne(d, r3, '\'');
  }

  // Where the reader is between quotes when it has read w there as it is.
  function InQuotes(d: Dialect, w: string): Mode {
    if w != "" && w[|w| - 1] == '\\' then SingleEscape(w[..|w| - 1])
    else if w != "" && d == Csh && w[|w| - 1] == '!' then Bang(w[..|w| - 1])
    else Single(w)
  }

  // Can c follow w between quotes?
  predicate CanFollow(d: Dialect, w: string, c: char) {
    && (d == Csh ==> c != '\n')
    && (w == "" || (
        var a := w[|w| - 1];
        if d == Fish then a == '\\' ==> c != '\\' && c != '\''
        else (a == '!' ==> KeepsBang(c)) && (a == '\\' ==> c != '!')))
  }

  lemma QuoteFollows(d: Dialect, ws: seq<string>, w: string)
    requires CanFollow(d, w, '\'')
    ensures Read(d, Reader(ws, InQuotes(d, w)), CLOSE_ESCAPE_REOPEN) == Reader(ws, InQuotes(d, w + ['\'']))
  {
    var r := Reader(ws, InQuotes(d, w));
    ReadEscape(d, r);
    if w != "" && w[|w| - 1] == '\\' {
      assert w[..|w| - 1] + ['\\'] == w;
    }
    assert Step(d, r, '\'') == Reader(ws, Bare(w));
  }

  lemma OtherFollows(d: Dialect, ws: seq<string>, w: string, c: char)
    requires CanFollow(d, w, c) && c != '\''
    ensures Step(d, Reader(ws, InQuotes(d, w)), c) == Reader(ws, InQuotes(d, w + [c]))
  {
    assert (w + [c])[..|w|] == w;
    if w != "" {
      assert w[..|w| - 1] + [w[|w| - 1]] == w;
    }
  }

  lemma CharFollows(d: Dialect, ws: seq<string>, w: string, c: char)
    requires CanFollow(d, w, c)
    ensures Read(d, Reader(ws, InQuotes(d, w)), EscapeOne(c, CLOSE_ESCAPE_REOPEN)) == Reader(ws, InQuotes(d, w + [c]))
  {
    if c == '\'' {
      QuoteFollows(d, ws, w);
    } else {
      ReadOne(d, Reader(ws, InQuotes(d, w)), c);
      OtherFollows(d, ws, w, c);
    }
  }

  // The reader is past ws in a word, or past a word, that begins with w; or it is stuck.
  ghost predicate Begins(r: Reader, ws: seq<string>, w: string) {
    || r.mode.Stuck?
    || (r.words == ws && !r.mode.Between? && w <= r.mode.word)
    || (|r.words| > |ws| && r.words[..|ws|] == ws && w <= r.words[|ws|])
  }

  lemma StepKeepsBeginning(d: Dialect, r: Reader, c: char, ws: seq<string>, w: string)
    requires Begins(r, ws, w)
    ensures Begins(Step(d, r, c), ws, w)
  {
    var t := Step(d, r, c);
    if r.words == ws && r.mode.Bare? && c == ' ' {
      assert t.words[..|ws|] == ws;
    } else if |r.words| > |ws| && r.words[..|ws|] == ws {
      assert t.words[..|ws|] == ws;
    }
  }

  lemma {:induction false} ReadKeepsBeginning(d: Dialect, r: Reader, s: string, ws: seq<string>, w: string)
    requires Begins(r, ws, w)
    ensures Begins(Read(d, r, s), ws, w)
    decreases |s|
  {
    if s != "" {
      StepKeepsBeginning(d, r, s[0], ws, w);
      ReadKeepsBeginning(d, Step(d, r, s[0]), s[1..], ws, w);
    }
  }

  // What has once been read wrong stays wrong.
  lemma WrongStaysWrong(d: Dialect, r: Reader, s: string, ws: seq<string>, w: string, text: string)
    requires Begins(r, ws, w) && !(w <= text)
    ensures Finish(Read(d, r, s)) != Some(ws + [text])
  {
    ReadKeepsBeginning(d, r, s, ws, w);
    var t := Read(d, r, s);
    if t.mode.Bare? && t.words != ws {
      assert (t.words + [t.mode.word])[|ws|] == t.words[|ws|];
    }
    assert (ws + [text])[|ws|] == text;
  }

  // The length of the word behind the first n, with an escape counted as one character.
  function Size(r: Reader, n: nat): nat {
    if |r.words| > n then |r.words[n]|
    else match r.mode
      case Bare(w) => |w|
      case BareEscape(w) => |w| + 1
      case Single(w) => |w|
      case SingleEscape(w) => |w| + 1
      case Bang(w) => |w| + 1
      case _ => 0
  }

  // fish gets at most one character out of each, and none out of a quote.
  lemma FishStepGrows(r: Reader, c: char, n: nat)
    requires n <= |r.words|
    ensures n <= |Step(Fish, r, c).words|
    ensures Size(Step(Fish, r, c), n) <= Size(r, n) + if c == '\'' then 0 else 1
  {
    if r.mode.Bare? && c == ' ' {
      assert (r.words + [r.mode.word])[n] == if n == |r.words| then r.mode.word else r.words[n];
    }
  }

  lemma FishCharGrows(r: Reader, c: char, n: nat)
    requires n <= |r.words|
    ensures var t := Read(Fish, r, EscapeOne(c, CLOSE_ESCAPE_REOPEN)); n <= |t.words| && Size(t, n) <= Size(r, n) + 1
  {
    if c == '\'' {
      ReadEscape(Fish, r);
      var r1 := Step(Fish, r, '\'');
      var r2 := Step(Fish, r1, '\\');
      FishStepGrows(r, '\'', n);
      FishStepGrows(r1, '\\', n);
      FishStepGrows(r2, '\'', n);
      FishStepGrows(Step(Fish, r2, '\''), '\'', n);
    } else {
      ReadOne(Fish, r, c);
      FishStepGrows(r, c, n);
    }
  }

  lemma {:induction false} FishGrows(r: Reader, s: string, n: nat)
    requires n <= |r.words|
    ensures var t := Read(Fish, r, ReplaceQuotes(s, CLOSE_ESCAPE_REOPEN) + "'");
      n <= |t.words| && Size(t, n) <= Size(r, n) + |s|
    decreases |s|
  {
    if s == "" {
      assert ReplaceQuotes(s, CLOSE_ESCAPE_REOPEN) + "'" == "'";
      ReadOne(Fish, r, '\'');
      FishStepGrows(r, '\'', n);
    } else {
      var one, rest := EscapeOne(s[0], CLOSE_ESCAPE_REOPEN), ReplaceQuotes(s[1..], CLOSE_ESCAPE_REOPEN);
      Assoc(one, rest, "'");
      ReadConcat(Fish, r, one, rest + "'");
      FishCharGrows(r, s[0], n);
      FishGrows(Read(Fish, r, one), s[1..], n);
    }
  }

  lemma FinishedWord(r: Reader, ws: seq<string>, text: string)
    requires |r.words| >= |ws| && Size(r, |ws|) < |text|
    ensures Finish(r) != Some(ws + [text])
  {
    assert (ws + [text])[|ws|] == text;
    if r.mode.Bare? {
      var all := r.words + [r.mode.word];
      assert all[|ws|] == if |r.words| == |ws| then r.mode.word else r.words[|ws|];
    }
  }

  // A backslash that fish has swallowed is missing at the end.
  lemma TooShort(r: Reader, s: string, ws: seq<string>, text: string)
    requires r.words == ws && Size(r, |ws|) + |s| < |text|
    ensures Finish(Read(Fish, r, ReplaceQuotes(s, CLOSE_ESCAPE_REOPEN) + "'")) != Some(ws + [text])
  {
    FishGrows(r, s, |ws|);
    FinishedWord(Read(Fish, r, ReplaceQuotes(s, CLOSE_ESCAPE_REOPEN) + "'"), ws, text);
  }

  // Every character of t before n may follow those before it.
  ghost predicate FitsUpTo(d: Dialect, t: string, n: nat)
    requires n <= |t|
  {
    forall i :: 0 <= i < n ==> CanFollow(d, t[..i], t[i])
  }

  lemma SafeWhenFitting(d: Dialect, t: string)
    requires FitsUpTo(d, t, |t|)
    ensures Safe(d, t) <==> t == "" || SafeAt(d, t, |t| - 1)
  {
    forall i | 0 <= i < |t| - 1 ensures SafeAt(d, t, i) {
      assert CanFollow(d, t[..i], t[i]) && CanFollow(d, t[..i + 1], t[i + 1]);
      assert t[..i + 1][i] == t[i];
    }
  }

  lemma UnsafeWhenNotFitting(d: Dialect, t: string, n: nat)
    requires n < |t| && !CanFollow(d, t[..n], t[n])
    ensures !Safe(d, t)
  {
    if d == Csh && t[n] == '\n' {
      assert !SafeAt(d, t, n);
    } else {
      assert !SafeAt(d, t, n - 1);
    }
  }

  // What happens at the first character that does not fit: the reader gets stuck, or it has taken
  // an escape for the character, or it has lost a backslash.
  lemma MisreadsAt(d: Dialect, ws: seq<string>, w: string, c: char)
    requires !CanFollow(d, w, c)
    ensures var t := Read(d, Reader(ws, InQuotes(d, w)), EscapeOne(c, CLOSE_ESCAPE_REOPEN));
      || t.mode.Stuck?
      || (w != "" && Begins(t, ws, w[..|w| - 1] + [c]) && c != w[|w| - 1])
      || (d == Fish && c == '\\' && t == Reader(ws, Single(w)))
  {
    var r := Reader(ws, InQuotes(d, w));
    if c == '\'' {
      ReadEscape(d, r);
      if d == Fish {
        var front := w[..|w| - 1];
        assert Step(d, r, c) == Reader(ws, Single(front + [c]));
        assert Begins(Step(d, r, c), ws, front + [c]);
        ReadKeepsBeginning(d, Step(d, r, c), ['\\'] + "''", ws, front + [c]);
        StepKeepsBeginning(d, Step(d, r, c), '\\', ws, front + [c]);
        StepKeepsBeginning(d, Step(d, Step(d, r, c), '\\'), '\'', ws, front + [c]);
        StepKeepsBeginning(d, Step(d, Step(d, Step(d, r, c), '\\'), '\''), '\'', ws, front + [c]);
      }
    } else {
      ReadOne(d, r, c);
      if w != "" {
        assert w[..|w| - 1] + [w[|w| - 1]] == w;
      }
    }
  }

  lemma {:induction false} StuckStaysStuck(d: Dialect, r: Reader, s: string)
    requires r.mode.Stuck?
    ensures Read(d, r, s).mode.Stuck?
    decreases |s|
  {
    if s != "" {
      StuckStaysStuck(d, r, s[1..]);
    }
  }

  lemma ClosesIff(d: Dialect, ws: seq<string>, t: string)
    ensures Finish(Read(d, Reader(ws, InQuotes(d, t)), "'")) == Some(ws + [t])
       <==> t == "" || SafeAt(d, t, |t| - 1) || (d == Csh && t[|t| - 1] == '\n')
  {
    ReadOne(d, Reader(ws, InQuotes(d, t)), '\'');
    if t != "" {
      assert t[..|t| - 1] + [t[|t| - 1]] == t;
    }
  }

  lemma NotReadBack(d: Dialect, ws: seq<string>, t: string, n: nat)
    requires n < |t| && !CanFollow(d, t[..n], t[n])
    ensures Finish(Read(d, Reader(ws, InQuotes(d, t[..n])), ReplaceQuotes(t[n..], CLOSE_ESCAPE_REOPEN) + "'"))
         != Some(ws + [t])
  {
    var r, w, c := Reader(ws, InQuotes(d, t[..n])), t[..n], t[n];
    var one, rest := EscapeOne(c, CLOSE_ESCAPE_REOPEN), ReplaceQuotes(t[n + 1..], CLOSE_ESCAPE_REOPEN);
    assert t[n..][1..] == t[n + 1..];
    Assoc(one, rest, "'");
    ReadConcat(d, r, one, rest + "'");
    MisreadsAt(d, ws, w, c);
    var next := Read(d, r, one);
    if next.mode.Stuck? {
      StuckStaysStuck(d, next, rest + "'");
    } else if w != "" && Begins(next, ws, w[..n - 1] + [c]) && c != w[n - 1] {
      assert (w[..n - 1] + [c])[n - 1] == c && t[n - 1] == w[n - 1];
      WrongStaysWrong(d, next, rest + "'", ws, w[..n - 1] + [c], t);
    } else {
      TooShort(next, t[n + 1..], ws, t);
    }
  }

  lemma {:induction false} BodyReadsBackIff(d: Dialect, ws: seq<string>, t: string, n: nat)
    requires n <= |t| && FitsUpTo(d, t, n)
    ensures Safe(d, t) <==>
            Finish(Read(d, Reader(ws, InQuotes(d, t[..n])), ReplaceQuotes(t[n..], CLOSE_ESCAPE_REOPEN) + "'"))
            == Some(ws + [t])
    decreases |t| - n
  {
    if n == |t| {
      assert t[..n] == t && ReplaceQuotes(t[n..], CLOSE_ESCAPE_REOPEN) + "'" == "'";
      if d == Csh && t != "" {
        assert CanFollow(d, t[..n - 1], t[n - 1]);
      }
      ClosesIff(d, ws, t);
      SafeWhenFitting(d, t);
    } else if CanFollow(d, t[..n], t[n]) {
      var r := Reader(ws, InQuotes(d, t[..n]));
      var one, rest := EscapeOne(t[n], CLOSE_ESCAPE_REOPEN), ReplaceQuotes(t[n + 1..], CLOSE_ESCAPE_REOPEN);
      assert t[n..][1..] == t[n + 1..] && t[..n] + [t[n]] == t[..n + 1];
      Assoc(one, rest, "'");
      ReadConcat(d, r, one, rest + "'");
      CharFollows(d, ws, t[..n], t[n]);
      BodyReadsBackIff(d, ws, t, n + 1);
    } else {
      UnsafeWhenNotFitting(d, t, n);
      NotReadBack(d, ws, t, n);
    }
  }

  // A quoted string, met between two words, is read back as it was if and only if it is safe.
  lemma QuotedReadsBackIff(d: Dialect, ws: seq<string>, s: string)
    ensures Finish(Read(d, Reader(ws, Between), Quote(s))) == Some(ws + [s]) <==> Safe(d, s)
  {
    var body := ReplaceQuotes(s, CLOSE_ESCAPE_REOPEN);
    Assoc("'", body, "'");
    ReadConcat(d, Reader(ws, Between), "'", body + "'");
    ReadOne(d, Reader(ws, Between), '\'');
    assert s[..0] == "" && s[0..] == s;
    BodyReadsBackIff(d, ws, s, 0);
  }
}
