/** Shell quoting (internal/shellutil/shellutil.go, internal/remote/remote.go), proved against the shell's own lexer. */
module ShellQuote {
  import opened Prelude
  import opened ShellLexer

  // strings.ReplaceAll(s, "'", escape)
  function ReplaceQuotes(s: string, escape: string): string {
    if s == "" then "" else EscapeOne(s[0], escape) + ReplaceQuotes(s[1..], escape)
  }

  function EscapeOne(c: char, escape: string): string {
    if c == '\'' then escape else [c]
  }

  const CLOSE_ESCAPE_REOPEN := "'\\''"
  const CLOSE_DOUBLE_REOPEN := "'\"'\"'"

  function Quote(s: string): string {
    "'" + ReplaceQuotes(s, CLOSE_ESCAPE_REOPEN) + "'"
  }

  // The variant of internal/remote.
  function RemoteQuote(s: string): string {
    "'" + ReplaceQuotes(s, CLOSE_DOUBLE_REOPEN) + "'"
  }

  method Join(args: seq<string>) returns (line: string)
    ensures line == JoinQuoted(args)
  {
    var quoted: seq<string> := [];
    for i := 0 to |args|
      invariant |quoted| == i && forall k :: 0 <= k < i ==> quoted[k] == Quote(args[k])
    {
      quoted := quoted + [Quote(args[i])];
    }
    line := "";
    for i := 0 to |quoted|
      invariant line == JoinQuoted(args[..i])
    {
      assert args[..i + 1][..i] == args[..i];
      line := if i == 0 then quoted[i] else line + " " + quoted[i];
    }
    assert args[..|args|] == args;
  }

  function JoinQuoted(args: seq<string>): string {
    if args == [] then ""
    else
      var n := |args| - 1;
      if n == 0 then Quote(args[0]) else JoinQuoted(args[..n]) + " " + Quote(args[n])
  }

  // Either way of writing a quote inside single quotes adds one quoted quote and stays inside.
  lemma EscapesDecode(ts: seq<Token>, w: Word)
    ensures Feed(Lexer(ts, Single(w)), CLOSE_ESCAPE_REOPEN) == Lexer(ts, Single(w + [Quoted('\'')]))
    ensures Feed(Lexer(ts, Single(w)), CLOSE_DOUBLE_REOPEN) == Lexer(ts, Single(w + [Quoted('\'')]))
  {
    var l := Lexer(ts, Single(w));
    var l1 := Lexer(ts, Bare(w));
    var done := Lexer(ts, Bare(w + [Quoted('\'')]));
    FeedOne(done, '\'');
    assert CLOSE_ESCAPE_REOPEN[1..][1..][1..] == "'" && CLOSE_ESCAPE_REOPEN[1..][1..][0] == '\'';
    assert Feed(Lexer(ts, BareEscape(w, true)), "''") == Feed(done, "''"[1..]);
    assert CLOSE_ESCAPE_REOPEN[1..][1..] == "''" && "''"[1..] == "'";
    assert CLOSE_DOUBLE_REOPEN[1..][1..] == "'\"'" && "'\"'"[1..] == "\"'" && "\"'"[1..] == "'";
    assert Feed(Lexer(ts, Double(w + [Quoted('\'')])), "\"'") == Feed(done, "\"'"[1..]);
  }

  lemma EscapedCharDecodes(ts: seq<Token>, w: Word, c: char, escape: string)
    requires escape == CLOSE_ESCAPE_REOPEN || escape == CLOSE_DOUBLE_REOPEN
    ensures Feed(Lexer(ts, Single(w)), EscapeOne(c, escape)) == Lexer(ts, Single(w + [Quoted(c)]))
  {
    if c == '\'' {
      EscapesDecode(ts, w);
    } else {
      FeedOne(Lexer(ts, Single(w)), c);
    }
  }

  // Inside single quotes an escaped string decodes to itself, whichever escape is used.
  lemma {:induction false} EscapedBodyDecodes(ts: seq<Token>, w: Word, s: string, escape: string)
    requires escape == CLOSE_ESCAPE_REOPEN || escape == CLOSE_DOUBLE_REOPEN
    ensures Feed(Lexer(ts, Single(w)), ReplaceQuotes(s, escape)) == Lexer(ts, Single(w + QuotedWord(s)))
    decreases |s|
  {
    if s == "" {
      assert w + [] == w;
    } else {
      var w' := w + [Quoted(s[0])];
      FeedConcat(Lexer(ts, Single(w)), EscapeOne(s[0], escape), ReplaceQuotes(s[1..], escape));
      EscapedCharDecodes(ts, w, s[0], escape);
      EscapedBodyDecodes(ts, w', s[1..], escape);
      Assoc(w, [Quoted(s[0])], QuotedWord(s[1..]));
    }
  }

  // A quoted string, met between two tokens, becomes the start of a word spelling the string.
  lemma QuotedDecodes(ts: seq<Token>, s: string, escape: string)
    requires escape == CLOSE_ESCAPE_REOPEN || escape == CLOSE_DOUBLE_REOPEN
    ensures Feed(Lexer(ts, Between), "'" + ReplaceQuotes(s, escape) + "'") == Lexer(ts, Bare(QuotedWord(s)))
  {
    var l := Lexer(ts, Between);
    var body := ReplaceQuotes(s, escape);
    FeedOne(l, '\'');
    FeedConcat(l, "'", body);
    FeedConcat(l, "'" + body, "'");
    EscapedBodyDecodes(ts, [], s, escape);
    assert [] + QuotedWord(s) == QuotedWord(s);
    FeedOne(Lexer(ts, Single(QuotedWord(s))), '\'');
  }

  function QuotedTokens(args: seq<string>): seq<Token> {
    if args == [] then []
    else QuotedTokens(args[..|args| - 1]) + [WordToken(QuotedWord(args[|args| - 1]))]
  }

  lemma {:induction false} JoinedTokens(args: seq<string>)
    ensures Feed(START, JoinQuoted(args)) ==
            if args == [] then START
            else Lexer(QuotedTokens(args[..|args| - 1]), Bare(QuotedWord(args[|args| - 1])))
    decreases |args|
  {
    if args != [] {
      var n := |args| - 1;
      var front, last := args[..n], args[n];
      JoinedTokens(front);
      if n == 0 {
        QuotedDecodes([], last, CLOSE_ESCAPE_REOPEN);
        assert front == [];
      } else {
        var before := JoinQuoted(front);
        FeedConcat(START, before, " ");
        FeedConcat(START, before + " ", Quote(last));
        FeedOne(Feed(START, before), ' ');
        QuotedDecodes(QuotedTokens(front), last, CLOSE_ESCAPE_REOPEN);
      }
    }
  }

  lemma {:induction false} QuotedTokensDenote(args: seq<string>, env: Env)
    ensures Argv(QuotedTokens(args), env) == Some(args)
    decreases |args|
  {
    if args != [] {
      var n := |args| - 1;
      QuotedTokensDenote(args[..n], env);
      FieldOfQuoted(args[n], env);
      var front := QuotedTokens(args[..n]);
      assert (front + [WordToken(QuotedWord(args[n]))])[..|front|] == front;
      assert args[..n] + [args[n]] == args;
    }
  }

  // The shell splits a joined command line back into exactly the arguments it was made from.
  lemma {:induction false} JoinRoundTrip(args: seq<string>)
    ensures Words(JoinQuoted(args)) == Some(args)
  {
    JoinedTokens(args);
    QuotedTokensDenote(args, map[]);
  }

  lemma RemoteQuoteRoundTrip(s: string)
    ensures Words(RemoteQuote(s)) == Some([s])
  {
    QuotedDecodes([], s, CLOSE_DOUBLE_REOPEN);
    QuotedTokensDenote([s], map[]);
    assert QuotedTokens([s]) == [WordToken(QuotedWord(s))];
  }
}
