/**
 Running a command through a login shell that need not be a POSIX one (internal/shellutil/shellutil.go).
 The user's shell reads a command line once for a transport that passes one on, and once more as the
 shell that the login command hands over to; in between sh reads the login command itself.
 */
module LoginShells {
  import opened Prelude
  import opened LoginCommand
  import opened ShellEval
  import opened ShellQuote
  import Lexer = ShellLexer
  import O = OtherShells

  datatype UserShell = PosixShell | OtherShell(dialect: O.Dialect)

  const FISH := OtherShell(O.Fish)
  const CSH := OtherShell(O.Csh)

  // The words of a line without expansions, as the user's shell reads it.
  function Reads(u: UserShell, line: string): Option<seq<string>> {
    match u case PosixShell => Lexer.Words(line) case OtherShell(d) => O.Words(d, line)
  }

  ghost predicate Survives(u: UserShell, s: string) {
    u.PosixShell? || O.Safe(u.dialect, s)
  }

  ghost predicate IsLiteralWord(s: string) {
    s != "" && forall i :: 0 <= i < |s| ==> O.IsLiteral(s[i])
  }

  ghost predicate AllLiteral(words: seq<string>) {
    forall i :: 0 <= i < |words| ==> IsLiteralWord(words[i])
  }

  lemma {:induction false} ReadBareText(d: O.Dialect, ws: seq<string>, w: string, s: string)
    requires forall i :: 0 <= i < |s| ==> O.IsLiteral(s[i])
    ensures O.Read(d, O.Reader(ws, O.Bare(w)), s) == O.Reader(ws, O.Bare(w + s))
    decreases |s|
  {
    if s == "" {
      assert w + s == w;
    } else {
      ReadBareText(d, ws, w + [s[0]], s[1..]);
      assert w + [s[0]] + s[1..] == w + s;
    }
  }

  lemma ReadWord(d: O.Dialect, ws: seq<string>, s: string)
    requires IsLiteralWord(s)
    ensures O.Read(d, O.Reader(ws, O.Between), s + " ") == O.Reader(ws + [s], O.Between)
  {
    O.ReadConcat(d, O.Reader(ws, O.Between), s, " ");
    ReadBareText(d, ws, [s[0]], s[1..]);
    assert [s[0]] + s[1..] == s && "" + [s[0]] == [s[0]];
    assert O.Step(d, O.Reader(ws, O.Between), s[0]) == O.Reader(ws, O.Bare([s[0]]));
    O.ReadOne(d, O.Reader(ws, O.Bare(s)), ' ');
  }

  lemma {:induction false} ReadFixed(d: O.Dialect, words: seq<string>)
    requires AllLiteral(words)
    ensures O.Read(d, O.START, Fixed(words)) == O.Reader(words, O.Between)
    decreases |words|
  {
    if words != [] {
      var n := |words| - 1;
      ReadFixed(d, words[..n]);
      O.ReadConcat(d, O.START, Fixed(words[..n]), words[n] + " ");
      ReadWord(d, words[..n], words[n]);
      assert words[..n] + [words[n]] == words;
    }
  }

  // Behind fixed words a quoted string is read back if and only if it survives in that shell.
  lemma ReadsBackIff(u: UserShell, words: seq<string>, s: string)
    requires AllFixed(words) && AllLiteral(words)
    ensures Reads(u, Fixed(words) + Quote(s)) == Some(words + [s]) <==> Survives(u, s)
  {
    match u
    case PosixShell => FixedTokens(words, s);
    case OtherShell(d) =>
      ReadFixed(d, words);
      O.ReadConcat(d, O.START, Fixed(words), Quote(s));
      O.QuotedReadsBackIff(d, words, s);
  }

  lemma CommandWordsAreLiteral()
    ensures AllLiteral(EXEC_SH) && AllLiteral(SH_C)
  {
    assert IsLiteralWord("exec") && IsLiteralWord("/bin/sh") && IsLiteralWord("-c") && IsLiteralWord("sh");
  }

  // What /bin/sh is asked to run by the words that the user's shell has read.
  function ShArgument(words: Option<seq<string>>): Option<string> {
    if words.Some? && |words.value| == 4 && words.value[..3] == ["exec", "/bin/sh", "-c"]
    then Some(words.value[3]) else None
  }

  // sh runs the login command, and the shell it hands over to reads the inner script.
  function Peel(u: UserShell, command: string, env: Lexer.Env): Option<string> {
    match FinalArgv(command, env)
    case Some(argv) => if |argv| == 4 && argv[0] == "exec" then ShArgument(Reads(u, argv[3])) else None
    case None => None
  }

  lemma ShArgumentIff(words: Option<seq<string>>, command: string)
    ensures ShArgument(words) == Some(command) <==> words == Some(EXEC_SH + [command])
  {
    if words.Some? && |words.value| == 4 {
      assert words.value == words.value[..3] + [words.value[3]];
      assert (EXEC_SH + [command])[..3] == EXEC_SH;
    }
  }

  // The login command delivers a command to /bin/sh if and only if it survives in the user's shell.
  lemma LoginDeliversIff(u: UserShell, command: string, env: Lexer.Env)
    ensures Peel(u, InteractiveLoginCommand(command), env) == Some(command) <==> Survives(u, command)
  {
    var inner := Fixed(EXEC_SH) + Quote(command);
    LoginIsWellFormed();
    LoginHandsOver(LOGIN, inner, env);
    CommandWordsAreFixed();
    CommandWordsAreLiteral();
    ReadsBackIff(u, EXEC_SH, command);
    ShArgumentIff(Reads(u, inner), command);
  }

  // Words joined by blanks.
  function Joined(words: seq<string>): string {
    if words == [] then ""
    else if |words| == 1 then words[0]
    else Joined(words[..|words| - 1]) + " " + words[|words| - 1]
  }

  // The transports that run a command line over ssh.
  predicate OverSsh(kind: string) {
    kind == "" || kind == "ssh" || kind == "codespace"
  }

  // What the far side executes of the arguments behind base: ssh joins them by blanks and the user's
  // shell there reads the line, docker executes them as they are.
  function FarSide(u: UserShell, kind: string, base: seq<string>, argv: seq<string>): Option<seq<string>> {
    if |argv| < |base| || argv[..|base|] != base then None
    else if OverSsh(kind) then Reads(u, Joined(argv[|base|..]))
    else if kind == "devcontainer" then Some(argv[|base|..])
    else None
  }

  function FarArgv(u: UserShell, kind: string, base: seq<string>, script: string): Option<seq<string>> {
    match WrapRemoteTransport(kind, base, script)
    case Wrapped(argv) => FarSide(u, kind, base, argv)
    case Unsupported => None
  }

  // The far side runs sh -c on the login command, if the transport or the user's shell leaves it alone.
  lemma CarriedIff(u: UserShell, kind: string, base: seq<string>, script: string)
    requires OverSsh(kind) || kind == "devcontainer"
    ensures FarArgv(u, kind, base, script) == Some(["sh", "-c", InteractiveLoginCommand(script)])
       <==> kind == "devcontainer" || Survives(u, InteractiveLoginCommand(script))
  {
    var command := InteractiveLoginCommand(script);
    CommandWordsAreFixed();
    CommandWordsAreLiteral();
    ReadsBackIff(u, SH_C, command);
    assert SH_C + [command] == ["sh", "-c", command];
    PrefixOf(base, SH_C + [command]);
    PrefixOf(base, [Fixed(SH_C) + Quote(command)]);
  }

  // A text that no shell here reads in a way of its own.
  ghost predicate Quiet(s: string) {
    forall i :: 0 <= i < |s| ==> s[i] != '\'' && s[i] != '\\' && s[i] != '!' && s[i] != '\n'
  }

  lemma SafeBehindQuiet(d: O.Dialect, a: string, b: string)
    requires Quiet(a)
    ensures O.Safe(d, a + b) <==> O.Safe(d, b)
  {
    var s := a + b;
    forall i | 0 <= i < |b| ensures O.SafeAt(d, s, |a| + i) <==> O.SafeAt(d, b, i) {
      assert s[|a| + i] == b[i];
      assert i + 1 < |b| ==> s[|a| + i + 1] == b[i + 1];
    }
    forall i | 0 <= i < |a| ensures O.SafeAt(d, s, i) {
      assert s[i] == a[i];
    }
    if O.Safe(d, b) {
      forall i | 0 <= i < |s| ensures O.SafeAt(d, s, i) {
        if i >= |a| {
          assert O.SafeAt(d, b, i - |a|);
        }
      }
    }
    if O.Safe(d, s) {
      forall i | 0 <= i < |b| ensures O.SafeAt(d, b, i) {
        assert O.SafeAt(d, s, |a| + i);
      }
    }
  }

  lemma SafeCons(d: O.Dialect, s: string)
    requires s != ""
    ensures O.Safe(d, s) <==> O.SafeAt(d, s, 0) && O.Safe(d, s[1..])
  {
    var t := s[1..];
    forall i | 0 <= i < |t| ensures O.SafeAt(d, s, i + 1) <==> O.SafeAt(d, t, i) {}
    if O.SafeAt(d, s, 0) && O.Safe(d, t) {
      forall i | 0 <= i < |s| ensures O.SafeAt(d, s, i) {
        if i > 0 {
          assert O.SafeAt(d, t, i - 1);
        }
      }
    }
    if O.Safe(d, s) {
      forall i | 0 <= i < |t| ensures O.SafeAt(d, t, i) {
        assert O.SafeAt(d, s, i + 1);
      }
    }
  }

  // The way of writing a quote is harmless to csh.
  lemma CshSafeBehindEscape(s: string)
    ensures O.Safe(O.Csh, CLOSE_ESCAPE_REOPEN + s) <==> O.Safe(O.Csh, s)
  {
    var e := CLOSE_ESCAPE_REOPEN + s;
    SafeCons(O.Csh, e);
    SafeCons(O.Csh, e[1..]);
    SafeCons(O.Csh, e[1..][1..]);
    SafeCons(O.Csh, e[1..][1..][1..]);
    assert e[1..][1..][1..][1..] == s;
  }

  lemma {:induction false} CshSafeBody(s: string)
    ensures O.Safe(O.Csh, ReplaceQuotes(s, CLOSE_ESCAPE_REOPEN) + "'") <==> O.Safe(O.Csh, s)
    decreases |s|
  {
    if s == "" {
      assert ReplaceQuotes(s, CLOSE_ESCAPE_REOPEN) + "'" == "'";
    } else {
      var one, rest := EscapeOne(s[0], CLOSE_ESCAPE_REOPEN), ReplaceQuotes(s[1..], CLOSE_ESCAPE_REOPEN) + "'";
      Assoc(one, ReplaceQuotes(s[1..], CLOSE_ESCAPE_REOPEN), "'");
      CshSafeBody(s[1..]);
      SafeCons(O.Csh, s);
      if s[0] == '\'' {
        CshSafeBehindEscape(rest);
      } else {
        SafeCons(O.Csh, one + rest);
        assert (one + rest)[1..] == rest;
        FirstOfBody(s[1..]);
      }
    }
  }

  lemma FirstOfBody(s: string)
    ensures var body := ReplaceQuotes(s, CLOSE_ESCAPE_REOPEN) + "'";
      body != "" && body[0] == if s == "" then '\'' else s[0]
  {
    if s != "" && s[0] == '\'' {
      assert CLOSE_ESCAPE_REOPEN[0] == '\'';
    }
  }

  lemma CshSafeQuoted(s: string)
    ensures O.Safe(O.Csh, Quote(s)) <==> O.Safe(O.Csh, s)
  {
    var body := ReplaceQuotes(s, CLOSE_ESCAPE_REOPEN) + "'";
    Assoc("'", ReplaceQuotes(s, CLOSE_ESCAPE_REOPEN), "'");
    SafeCons(O.Csh, "'" + body);
    assert ("'" + body)[1..] == body;
    CshSafeBody(s);
  }

  // The fixed part of the login command.
  function LoginHead(): string {
    Setup(LOGIN) + HandOver(LOGIN.shellVar, LOGIN.flagsVar)
  }

  lemma AssignmentIsQuiet()
    ensures Quiet(Assignment(LOGIN.shellVar + "=", LOGIN.sourceVar + (":-" + LOGIN.fallback)))
  {
    assert Quiet(LOGIN.shellVar) && Quiet(LOGIN.sourceVar) && Quiet(LOGIN.fallback);
  }

  lemma CaseHeadIsQuiet()
    ensures Quiet(CaseHead(LOGIN.shellVar + "##*/", LOGIN.csh))
  {
    assert Quiet(LOGIN.shellVar) && Quiet(LOGIN.csh);
  }

  lemma ArmIsQuiet(pattern: string, name: string, value: string)
    requires Quiet(pattern) && Quiet(name) && Quiet(value)
    ensures Quiet(CaseArm(pattern, name + ("=" + value)))
  {
    assert Quiet(pattern + ")" + " ");
    assert Quiet(name + ("=" + value) + " ");
  }

  lemma HandOverIsQuiet()
    ensures Quiet(HandOver(LOGIN.shellVar, LOGIN.flagsVar))
  {
    assert Quiet(LOGIN.shellVar) && Quiet(LOGIN.flagsVar);
  }

  lemma ArmsAreQuiet()
    ensures Quiet(CaseArm(LOGIN.tcsh, LOGIN.flagsVar + ("=" + LOGIN.cshFlags)))
    ensures Quiet(CaseArm("*", LOGIN.flagsVar + ("=" + LOGIN.otherFlags)))
  {
    assert Quiet(LOGIN.tcsh) && Quiet("*") && Quiet(LOGIN.flagsVar) && Quiet(LOGIN.cshFlags) && Quiet(LOGIN.otherFlags);
    ArmIsQuiet(LOGIN.tcsh, LOGIN.flagsVar, LOGIN.cshFlags);
    ArmIsQuiet("*", LOGIN.flagsVar, LOGIN.otherFlags);
  }

  lemma LoginHeadIsQuiet()
    ensures Quiet(LoginHead())
  {
    AssignmentIsQuiet();
    CaseHeadIsQuiet();
    ArmsAreQuiet();
    HandOverIsQuiet();
    assert Quiet("esac;" + " ");
  }

  lemma ExecIsQuiet()
    ensures Quiet(Fixed(EXEC_SH))
  {
    assert Quiet("exec") && Quiet("/bin/sh") && Quiet("-c");
    assert EXEC_SH[..2] == ["exec", "/bin/sh"] && ["exec", "/bin/sh"][..1] == ["exec"];
  }

  // csh reads the login command back if and only if it would read the script back.
  lemma CshSafeLogin(script: string)
    ensures O.Safe(O.Csh, InteractiveLoginCommand(script)) <==> O.Safe(O.Csh, script)
  {
    var inner := Fixed(EXEC_SH) + Quote(script);
    LoginHeadIsQuiet();
    ExecIsQuiet();
    SafeBehindQuiet(O.Csh, LoginHead(), Quote(inner));
    CshSafeQuoted(inner);
    SafeBehindQuiet(O.Csh, Fixed(EXEC_SH), Quote(script));
    CshSafeQuoted(script);
  }

  lemma {:induction false} ReplaceConcat(a: string, b: string)
    ensures ReplaceQuotes(a + b, CLOSE_ESCAPE_REOPEN)
         == ReplaceQuotes(a, CLOSE_ESCAPE_REOPEN) + ReplaceQuotes(b, CLOSE_ESCAPE_REOPEN)
    decreases |a|
  {
    if a == "" {
      assert a + b == b;
    } else {
      assert (a + b)[1..] == a[1..] + b && (a + b)[0] == a[0];
      ReplaceConcat(a[1..], b);
      Assoc(EscapeOne(a[0], CLOSE_ESCAPE_REOPEN), ReplaceQuotes(a[1..], CLOSE_ESCAPE_REOPEN),
            ReplaceQuotes(b, CLOSE_ESCAPE_REOPEN));
    }
  }

  // fish never reads the login command back: it always holds a backslash before a quote.
  lemma FishUnsafeLogin(script: string)
    ensures !O.Safe(O.Fish, InteractiveLoginCommand(script))
  {
    var inner := Fixed(EXEC_SH) + Quote(script);
    var rest := ReplaceQuotes(script, CLOSE_ESCAPE_REOPEN) + "'";
    Assoc("'", ReplaceQuotes(script, CLOSE_ESCAPE_REOPEN), "'");
    ReplaceConcat(Fixed(EXEC_SH), Quote(script));
    assert ReplaceQuotes("'" + rest, CLOSE_ESCAPE_REOPEN)
        == CLOSE_ESCAPE_REOPEN + ReplaceQuotes(("'" + rest)[1..], CLOSE_ESCAPE_REOPEN);
    BackslashQuote(LoginHead() + ("'" + ReplaceQuotes(Fixed(EXEC_SH), CLOSE_ESCAPE_REOPEN)),
                   ReplaceQuotes(("'" + rest)[1..], CLOSE_ESCAPE_REOPEN) + "'");
    Around(LoginHead(), "'", ReplaceQuotes(Fixed(EXEC_SH), CLOSE_ESCAPE_REOPEN), CLOSE_ESCAPE_REOPEN,
           ReplaceQuotes(("'" + rest)[1..], CLOSE_ESCAPE_REOPEN), "'");
  }

  lemma Around(a: string, b: string, c: string, d: string, e: string, f: string)
    ensures a + (b + (c + (d + e)) + f) == a + (b + c) + d + (e + f)
  {
  }

  lemma BackslashQuote(a: string, b: string)
    ensures !O.Safe(O.Fish, a + CLOSE_ESCAPE_REOPEN + b)
  {
    var s := a + CLOSE_ESCAPE_REOPEN + b;
    assert s[|a| + 1] == '\\' && s[|a| + 2] == '\'';
    assert !O.SafeAt(O.Fish, s, |a| + 1);
  }

  // Every shell on the way reads what was quoted for it, and /bin/sh gets the script.
  ghost predicate Intact(u: UserShell, kind: string, base: seq<string>, script: string, env: Lexer.Env) {
    && FarArgv(u, kind, base, script) == Some(["sh", "-c", InteractiveLoginCommand(script)])
    && Peel(u, InteractiveLoginCommand(script), env) == Some(script)
  }

  // Over a supported transport a script arrives intact always if the user's shell is a POSIX one,
  // exactly if it is safe for csh if it is csh, and with fish only in a devcontainer, and then
  // exactly if it is safe for fish.
  lemma TransportIntactIff(u: UserShell, kind: string, base: seq<string>, script: string, env: Lexer.Env)
    requires OverSsh(kind) || kind == "devcontainer"
    ensures Intact(u, kind, base, script, env) <==> Survives(u, script) && (u == FISH ==> kind == "devcontainer")
  {
    CarriedIff(u, kind, base, script);
    LoginDeliversIff(u, script, env);
    CshSafeLogin(script);
    FishUnsafeLogin(script);
  }

  // What does not survive: a line break in csh, and in fish a backslash before a single quote or before
  // another backslash.
  lemma WhatDoesNotSurvive(a: string, b: string)
    ensures !Survives(CSH, a + ['\n'] + b)
    ensures !Survives(FISH, a + ['\\', '\''] + b) && !Survives(FISH, a + ['\\', '\\'] + b)
  {
    assert !O.SafeAt(O.Csh, a + ['\n'] + b, |a|);
    assert !O.SafeAt(O.Fish, a + ['\\', '\''] + b, |a|);
    assert !O.SafeAt(O.Fish, a + ['\\', '\\'] + b, |a|);
  }

  // The script that /bin/sh runs on the far side.
  function Delivered(u: UserShell, kind: string, base: seq<string>, script: string, env: Lexer.Env): Option<string> {
    match FarArgv(u, kind, base, script)
    case Some(ran) => if |ran| == 3 && ran[..2] == ["sh", "-c"] then Peel(u, ran[2], env) else None
    case None => None
  }

  lemma IntactIsDelivered(u: UserShell, kind: string, base: seq<string>, script: string, env: Lexer.Env)
    requires Intact(u, kind, base, script, env)
    ensures Delivered(u, kind, base, script, env) == Some(script)
  {
    PrefixOf(["sh", "-c"], [InteractiveLoginCommand(script)]);
  }

  // In a devcontainer surviving is all it takes, and nothing less will do.
  lemma DevcontainerDeliversIff(u: UserShell, base: seq<string>, script: string, env: Lexer.Env)
    ensures Delivered(u, "devcontainer", base, script, env) == Some(script) <==> Survives(u, script)
  {
    CarriedIff(u, "devcontainer", base, script);
    LoginDeliversIff(u, script, env);
    PrefixOf(["sh", "-c"], [InteractiveLoginCommand(script)]);
  }

  // So with a POSIX shell every transport delivers every script, and any other transport is refused.
  lemma TransportRoundTrip(kind: string, base: seq<string>, script: string, env: Lexer.Env)
    ensures kind in ["", "ssh", "codespace", "devcontainer"] ==>
              Delivered(PosixShell, kind, base, script, env) == Some(script)
    ensures kind !in ["", "ssh", "codespace", "devcontainer"] ==>
              WrapRemoteTransport(kind, base, script).Unsupported?
  {
    if OverSsh(kind) || kind == "devcontainer" {
      TransportIntactIff(PosixShell, kind, base, script, env);
      IntactIsDelivered(PosixShell, kind, base, script, env);
    }
  }
}
