/**
 What fish does to a login command that ssh passes on as a command line (internal/shellutil/shellutil.go).
 */
module FishTransport {
  import opened Prelude
  import opened LoginCommand
  import opened LoginShells
  import opened ShellQuote
  import Lexer = ShellLexer
  import O = OtherShells

  lemma {:induction false} ReadQuiet(ws: seq<string>, w: string, s: string)
    requires Quiet(s)
    ensures O.Read(O.Fish, O.Reader(ws, O.Single(w)), s) == O.Reader(ws, O.Single(w + s))
    decreases |s|
  {
    if s == "" {
      assert w + s == w;
    } else {
      ReadQuiet(ws, w + [s[0]], s[1..]);
      assert w + [s[0]] + s[1..] == w + s;
    }
  }

  lemma {:induction false} QuoteFreeStays(s: string)
    requires '\'' !in s
    ensures ReplaceQuotes(s, CLOSE_ESCAPE_REOPEN) == s
    decreases |s|
  {
    if s != "" {
      QuoteFreeStays(s[1..]);
      assert [s[0]] + s[1..] == s;
    }
  }

  lemma ReadQuoteInside(ws: seq<string>, w: string)
    ensures O.Read(O.Fish, O.Reader(ws, O.Single(w)), CLOSE_ESCAPE_REOPEN) == O.Reader(ws, O.Single(w + ['\'']))
  {
    O.ReadEscape(O.Fish, O.Reader(ws, O.Single(w)));
  }

  // A quoted quote of the login command, quoted once more: fish takes the backslash in it for an
  // escape and is outside of quotes afterwards.
  lemma FishLosesTrack(ws: seq<string>, w: string)
    ensures exists v ::
              O.Read(O.Fish, O.Reader(ws, O.Single(w)), ReplaceQuotes(CLOSE_ESCAPE_REOPEN, CLOSE_ESCAPE_REOPEN))
              == O.Reader(ws, O.Bare(v))
  {
    var q, r := CLOSE_ESCAPE_REOPEN, O.Reader(ws, O.Single(w));
    QuoteTwice();
    O.ReadConcat(O.Fish, r, q, ['\\'] + (q + q));
    ReadQuoteInside(ws, w);
    var r1 := O.Reader(ws, O.Single(w + ['\'']));
    O.ReadConcat(O.Fish, r1, ['\\'], q + q);
    O.ReadOne(O.Fish, r1, '\\');
    var r2 := O.Reader(ws, O.SingleEscape(w + ['\'']));
    O.ReadConcat(O.Fish, r2, q, q);
    O.ReadEscape(O.Fish, r2);
    var v := w + ['\''] + ['\''] + ['\''];
    O.ReadEscape(O.Fish, O.Reader(ws, O.Bare(v)));
  }

  lemma QuoteTwice()
    ensures ReplaceQuotes(CLOSE_ESCAPE_REOPEN, CLOSE_ESCAPE_REOPEN)
         == CLOSE_ESCAPE_REOPEN + (['\\'] + (CLOSE_ESCAPE_REOPEN + CLOSE_ESCAPE_REOPEN))
  {
    var q := CLOSE_ESCAPE_REOPEN;
    assert q == ['\''] + (['\\'] + (['\''] + ['\'']));
    ReplaceConcat(['\''], ['\\'] + (['\''] + ['\'']));
    ReplaceConcat(['\\'], ['\''] + ['\'']);
    ReplaceConcat(['\''], ['\'']);
    ReplaceOne('\'');
    ReplaceOne('\\');
  }

  lemma ReplaceOne(c: char)
    ensures ReplaceQuotes([c], CLOSE_ESCAPE_REOPEN) == EscapeOne(c, CLOSE_ESCAPE_REOPEN)
  {
    assert [c][1..] == "" && EscapeOne(c, CLOSE_ESCAPE_REOPEN) + "" == EscapeOne(c, CLOSE_ESCAPE_REOPEN);
  }

  lemma {:induction false} WordsOnlyGrow(r: O.Reader, s: string)
    ensures |O.Read(O.Fish, r, s).words| >= |r.words|
    decreases |s|
  {
    if s != "" {
      WordsOnlyGrow(O.Step(O.Fish, r, s[0]), s[1..]);
    }
  }

  lemma QuoteFinishesNothing(r: O.Reader)
    requires |r.words| >= 3
    ensures var all := O.Finish(O.Step(O.Fish, r, '\'')); all.None? || |all.value| > 3
  {
  }

  // Once three words are complete, more text that ends in a quote makes more words, or none.
  lemma TooManyWords(r: O.Reader, s: string)
    requires |r.words| >= 3
    ensures var all := O.Finish(O.Read(O.Fish, r, s + "'")); all.None? || |all.value| > 3
  {
    var t := O.Read(O.Fish, r, s);
    WordsOnlyGrow(r, s);
    O.ReadConcat(O.Fish, r, s, ['\'']);
    O.ReadOne(O.Fish, t, '\'');
    assert O.Read(O.Fish, r, s + "'") == O.Step(O.Fish, t, '\'');
    QuoteFinishesNothing(t);
  }

  // The inner script of a login command, quoted once and twice.
  lemma QuotedTwice(script: string)
    ensures var q := CLOSE_ESCAPE_REOPEN;
      ReplaceQuotes(ReplaceQuotes(Fixed(EXEC_SH) + Quote(script), q), q)
      == Fixed(EXEC_SH)
         + (ReplaceQuotes(q, q) + ReplaceQuotes(ReplaceQuotes(ReplaceQuotes(script, q), q), q) + ReplaceQuotes(q, q))
  {
    var q, exec := CLOSE_ESCAPE_REOPEN, Fixed(EXEC_SH);
    var r1 := ReplaceQuotes(script, q);
    var r2 := ReplaceQuotes(r1, q);
    ExecIsQuiet();
    QuoteFreeStays(exec);
    ReplaceOne('\'');
    ReplaceConcat(exec, Quote(script));
    ReplaceConcat("'" + r1, "'");
    ReplaceConcat("'", r1);
    ReplaceConcat(exec, q + r2 + q);
    ReplaceConcat(q + r2, q);
    ReplaceConcat(q, r2);
  }

  lemma QuotedArgument(head: string, body: string)
    requires '\'' !in head
    ensures Quote(head + ("'" + body + "'"))
         == "'" + (head + (CLOSE_ESCAPE_REOPEN + ReplaceQuotes(body, CLOSE_ESCAPE_REOPEN) + CLOSE_ESCAPE_REOPEN)) + "'"
  {
    QuoteFreeStays(head);
    ReplaceOne('\'');
    ReplaceConcat(head, "'" + body + "'");
    ReplaceConcat("'" + body, "'");
    ReplaceConcat("'", body);
  }

  // How the login command of a script begins, once it has been quoted as an argument of sh -c.
  lemma QuotedLoginBegins(script: string) returns (tail: string)
    ensures var q := CLOSE_ESCAPE_REOPEN;
      Quote(InteractiveLoginCommand(script))
      == "'" + (LoginHead() + (q + (Fixed(EXEC_SH) + (ReplaceQuotes(q, q)
         + (ReplaceQuotes(ReplaceQuotes(ReplaceQuotes(script, q), q), q) + tail))))) + "'"
  {
    var q := CLOSE_ESCAPE_REOPEN;
    var inner := Fixed(EXEC_SH) + Quote(script);
    LoginHeadIsQuiet();
    QuotedArgument(LoginHead(), ReplaceQuotes(inner, q));
    QuotedTwice(script);
    tail := ReplaceQuotes(q, q) + q;
    Regrouped(LoginHead(), q, Fixed(EXEC_SH), ReplaceQuotes(q, q),
              ReplaceQuotes(ReplaceQuotes(ReplaceQuotes(script, q), q), q));
  }

  lemma Regrouped(head: string, q: string, exec: string, q2: string, r: string)
    ensures head + (q + (exec + (q2 + r + q2)) + q) == head + (q + (exec + (q2 + (r + (q2 + q)))))
  {
  }

  lemma ThriceReplaced(a: string, b: string) returns (rest: string)
    requires forall i :: 0 <= i < |a| ==> O.IsLiteral(a[i])
    ensures ReplaceQuotes(ReplaceQuotes(ReplaceQuotes(a + " " + b, CLOSE_ESCAPE_REOPEN), CLOSE_ESCAPE_REOPEN),
                          CLOSE_ESCAPE_REOPEN) == a + " " + rest
  {
    QuoteFreeStays(a + " ");
    ReplaceConcat(a + " ", b);
    var r1 := ReplaceQuotes(b, CLOSE_ESCAPE_REOPEN);
    ReplaceConcat(a + " ", r1);
    var r2 := ReplaceQuotes(r1, CLOSE_ESCAPE_REOPEN);
    ReplaceConcat(a + " ", r2);
    rest := ReplaceQuotes(r2, CLOSE_ESCAPE_REOPEN);
  }

  lemma FishPeels(head: string, q: string, exec: string, q2: string, rest: string)
    ensures "'" + (head + (q + (exec + (q2 + rest)))) + "'" == "'" + (head + (q + (exec + (q2 + (rest + "'")))))
  {
  }

  // fish has got to the script and is outside of quotes.
  lemma FishOutside(ws: seq<string>, rest: string) returns (v: string)
    ensures O.Read(O.Fish, O.Reader(ws, O.Between),
                   "'" + (LoginHead() + (CLOSE_ESCAPE_REOPEN + (Fixed(EXEC_SH)
                   + (ReplaceQuotes(CLOSE_ESCAPE_REOPEN, CLOSE_ESCAPE_REOPEN) + rest)))) + "'")
         == O.Read(O.Fish, O.Reader(ws, O.Bare(v)), rest + "'")
  {
    var q, head, exec := CLOSE_ESCAPE_REOPEN, LoginHead(), Fixed(EXEC_SH);
    var q2 := ReplaceQuotes(q, q);
    FishPeels(head, q, exec, q2, rest);
    O.ReadConcat(O.Fish, O.Reader(ws, O.Between), "'", head + (q + (exec + (q2 + (rest + "'")))));
    O.ReadOne(O.Fish, O.Reader(ws, O.Between), '\'');
    LoginHeadIsQuiet();
    O.ReadConcat(O.Fish, O.Reader(ws, O.Single("")), head, q + (exec + (q2 + (rest + "'"))));
    ReadQuiet(ws, "", head);
    O.ReadConcat(O.Fish, O.Reader(ws, O.Single("" + head)), q, exec + (q2 + (rest + "'")));
    ReadQuoteInside(ws, "" + head);
    var w := "" + head + ['\''];
    O.ReadConcat(O.Fish, O.Reader(ws, O.Single(w)), exec, q2 + (rest + "'"));
    ExecIsQuiet();
    ReadQuiet(ws, w, exec);
    O.ReadConcat(O.Fish, O.Reader(ws, O.Single(w + exec)), q2, rest + "'");
    FishLosesTrack(ws, w + exec);
    v :| O.Read(O.Fish, O.Reader(ws, O.Single(w + exec)), q2) == O.Reader(ws, O.Bare(v));
  }

  // Outside of quotes the blank of the script ends a word.
  lemma BlankEndsWord(ws: seq<string>, v: string, a: string, rest: string)
    requires |ws| == 2 && forall i :: 0 <= i < |a| ==> O.IsLiteral(a[i])
    ensures var all := O.Finish(O.Read(O.Fish, O.Reader(ws, O.Bare(v)), a + " " + rest + "'"));
      all.None? || |all.value| > 3
  {
    var r := O.Reader(ws, O.Bare(v));
    assert a + " " + rest + "'" == a + (" " + (rest + "'"));
    O.ReadConcat(O.Fish, r, a, " " + (rest + "'"));
    ReadBareText(O.Fish, ws, v, a);
    O.ReadConcat(O.Fish, O.Reader(ws, O.Bare(v + a)), " ", rest + "'");
    O.ReadOne(O.Fish, O.Reader(ws, O.Bare(v + a)), ' ');
    TooManyWords(O.Reader(ws + [v + a], O.Between), rest);
  }

  lemma FishReadsTooMuch(a: string, b: string)
    requires forall i :: 0 <= i < |a| ==> O.IsLiteral(a[i])
    ensures var all := Reads(FISH, Fixed(SH_C) + Quote(InteractiveLoginCommand(a + " " + b)));
      all.None? || |all.value| > 3
  {
    var script := a + " " + b;
    var tail := QuotedLoginBegins(script);
    var thrice := ThriceReplaced(a, b);
    CommandWordsAreLiteral();
    ReadFixed(O.Fish, SH_C);
    O.ReadConcat(O.Fish, O.START, Fixed(SH_C), Quote(InteractiveLoginCommand(script)));
    Assoc(a + " ", thrice, tail);
    var v := FishOutside(SH_C, a + " " + (thrice + tail));
    BlankEndsWord(SH_C, v, a, thrice + tail);
  }

  // Over ssh, fish cuts a script of more than one word apart: whatever b is, sh does not get it.
  lemma FishSplitsScript(kind: string, base: seq<string>, a: string, b: string, env: Lexer.Env)
    requires OverSsh(kind) && forall i :: 0 <= i < |a| ==> O.IsLiteral(a[i])
    ensures Delivered(FISH, kind, base, a + " " + b, env) == None
  {
    var script := a + " " + b;
    var command := InteractiveLoginCommand(script);
    PrefixOf(base, [Fixed(SH_C) + Quote(command)]);
    FishReadsTooMuch(a, b);
  }
}
