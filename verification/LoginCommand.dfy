/**
 Running a command in the remote user's login shell (internal/shellutil/shellutil.go), proved
 against the shell's own rules.
 */
module LoginCommand {
  import opened Prelude
  import opened ShellEval
  import opened ShellLexer
  import opened ShellQuote

  // An assignment of a parameter expansion.
  function Assignment(assign: string, shell: string): string {
    assign + ("${" + shell + "}") + ";" + " "
  }

  // A case on a parameter expansion, up to the first of two patterns.
  function CaseHead(base: string, first: string): string {
    "case " + ("\"" + ("${" + base + "}") + "\"" + " ") + "in " + (first + "|")
  }

  // The last pattern of an arm and its action.
  function CaseArm(pattern: string, action: string): string {
    pattern + ")" + " " + (action + " ") + ";;" + " "
  }

  // What the wrapping fragment is made of.
  datatype LoginText = LoginText(shellVar: string, flagsVar: string, sourceVar: string, fallback: string,
                                 csh: string, tcsh: string, cshFlags: string, otherFlags: string)

  const LOGIN := LoginText("remote_shell", "shell_flags", "SHELL", "/bin/sh", "csh", "tcsh", "-ic", "-lic")

  // The two variables are set before anything else.
  function Setup(t: LoginText): string {
    Assignment(t.shellVar + "=", t.sourceVar + (":-" + t.fallback))
    + CaseHead(t.shellVar + "##*/", t.csh)
    + CaseArm(t.tcsh, t.flagsVar + ("=" + t.cshFlags))
    + CaseArm("*", t.flagsVar + ("=" + t.otherFlags))
    + ("esac;" + " ")
  }

  // The chosen shell takes over, with the chosen flags.
  function HandOver(shell: string, flags: string): string {
    "exec " + ("\"$" + shell + "\" ") + ("\"$" + flags + "\" ")
  }

  function LoginScript(t: LoginText, inner: string): string {
    Setup(t) + HandOver(t.shellVar, t.flagsVar) + Quote(inner)
  }

  // Fixed words, each followed by a blank.
  function Fixed(words: seq<string>): string {
    if words == [] then "" else Fixed(words[..|words| - 1]) + (words[|words| - 1] + " ")
  }

  const EXEC_SH := ["exec", "/bin/sh", "-c"]
  const SH_C := ["sh", "-c"]

  function InteractiveLoginCommand(command: string): string {
    LoginScript(LOGIN, Fixed(EXEC_SH) + Quote(command))
  }

  lemma WordThenBlank(ts: seq<Token>, s: string)
    requires IsWordStart(s)
    ensures Feed(Lexer(ts, Between), s + " ") == Lexer(ts + [WordToken(PlainWord(s))], Between)
  {
    FeedWordStart(ts, s);
    FeedConcat(Lexer(ts, Between), s, " ");
    FeedOne(Lexer(ts, Bare(PlainWord(s))), ' ');
  }

  lemma WordThenOperator(ts: seq<Token>, s: string, c: char)
    requires IsWordStart(s) && IsOperatorStart(c)
    ensures Feed(Lexer(ts, Between), s + [c]) == Lexer(ts + [WordToken(PlainWord(s))], InOperator([c]))
  {
    FeedWordStart(ts, s);
    FeedConcat(Lexer(ts, Between), s, [c]);
    FeedOne(Lexer(ts, Bare(PlainWord(s))), c);
  }

  // An operator ends where a character follows that cannot extend it.
  lemma AfterOperator(ts: seq<Token>, c: char, s: string)
    requires s != "" && !ExtendsOperator([c], s[0])
    ensures Feed(Lexer(ts, InOperator([c])), s) == Feed(Lexer(ts + [Operator([c])], Between), s)
  {
  }

  lemma OperatorThenBlank(ts: seq<Token>, c: char)
    ensures Feed(Lexer(ts, InOperator([c])), " ") == Lexer(ts + [Operator([c])], Between)
  {
    FeedOne(Lexer(ts, InOperator([c])), ' ');
  }

  lemma DoubleSemicolonBlank(ts: seq<Token>)
    ensures Feed(Lexer(ts, Between), ";;") == Lexer(ts, InOperator(";;"))
    ensures Feed(Lexer(ts, InOperator(";;")), " ") == Lexer(ts + [Operator(";;")], Between)
  {
    assert ";;"[1..] == ";";
    FeedOne(Lexer(ts, InOperator(";")), ';');
    FeedOne(Lexer(ts, InOperator(";;")), ' ');
    assert ";" + [';'] == ";;";
  }

  ghost predicate IsWordStart(s: string) {
    s != "" && AllPlain(s) && s[0] != '#'
  }

  lemma QuotedNameThenBlank(ts: seq<Token>, name: string)
    requires IsName(name)
    ensures Feed(Lexer(ts, Between), "\"$" + name + "\" ") == Lexer(ts + [WordToken([Param(name, true)])], Between)
  {
    var l := Lexer(ts, Between);
    FeedConcat(l, "\"$", name);
    FeedConcat(l, "\"$" + name, "\" ");
    assert "\"$"[1..] == "$" && "\" "[1..] == " ";
    FeedOne(Lexer(ts, Double([])), '$');
    FeedName(ts, [], true, [name[0]], name[1..]);
    assert [name[0]] + name[1..] == name;
    assert [] + [Param(name, true)] == [Param(name, true)];
    FeedOne(Lexer(ts, Bare([Param(name, true)])), ' ');
  }

  lemma BracesAfter(ts: seq<Token>, w: Word, q: bool, text: string)
    requires IsExpansion(text)
    ensures Feed(Lexer(ts, if q then Double(w) else Bare(w)), "${" + text + "}")
         == Lexer(ts, if q then Double(w + [Param(text, true)]) else Bare(w + [Param(text, false)]))
  {
    var l := Lexer(ts, if q then Double(w) else Bare(w));
    FeedConcat(l, "${", text);
    FeedConcat(l, "${" + text, "}");
    assert "${"[1..] == "{";
    FeedOne(Lexer(ts, Dollar(w, q)), '{');
    FeedBrace(ts, w, q, "", text);
    assert "" + text == text;
    FeedOne(Lexer(ts, Brace(w, q, text)), '}');
  }

  ghost predicate IsExpansion(text: string) {
    forall i :: 0 <= i < |text| ==> IsBraceText(text[i])
  }

  lemma AssignmentTokens(name: string, text: string)
    requires IsWordStart(name) && IsExpansion(text)
    ensures Feed(START, Assignment(name, text))
         == Lexer([WordToken(PlainWord(name) + [Param(text, false)]), Operator(";")], Between)
  {
    var expansion := "${" + text + "}";
    FeedWordStart([], name);
    FeedConcat(START, name, expansion);
    BracesAfter([], PlainWord(name), false, text);
    var w := PlainWord(name) + [Param(text, false)];
    FeedConcat(START, name + expansion, ";");
    FeedOne(Lexer([], Bare(w)), ';');
    FeedConcat(START, name + expansion + ";", " ");
    assert [] + [WordToken(w)] == [WordToken(w)];
    OperatorThenBlank([WordToken(w)], ';');
  }

  // A parameter expansion alone between double quotes, then a blank.
  lemma QuotedBracesThenBlank(ts: seq<Token>, text: string)
    requires forall i :: 0 <= i < |text| ==> IsBraceText(text[i])
    ensures Feed(Lexer(ts, Between), "\"" + ("${" + text + "}") + "\"" + " ")
        == Lexer(ts + [WordToken([Param(text, true)])], Between)
  {
    var l := Lexer(ts, Between);
    var expansion := "${" + text + "}";
    FeedOne(l, '"');
    FeedConcat(l, "\"", expansion);
    BracesAfter(ts, [], true, text);
    assert [] + [Param(text, true)] == [Param(text, true)];
    FeedConcat(l, "\"" + expansion, "\"");
    FeedOne(Lexer(ts, Double([Param(text, true)])), '"');
    FeedConcat(l, "\"" + expansion + "\"", " ");
    FeedOne(Lexer(ts, Bare([Param(text, true)])), ' ');
  }

  // The tokens that an arm adds, whether it follows a blank or the | of an earlier pattern.
  function ArmTokens(pattern: string, action: string): seq<Token> {
    [WordToken(PlainWord(pattern)), Operator(")"), WordToken(PlainWord(action)), Operator(";;")]
  }

  lemma CaseArmTokens(ts: seq<Token>, pattern: string, action: string)
    requires IsWordStart(pattern) && IsWordStart(action)
    ensures Feed(Lexer(ts, Between), CaseArm(pattern, action)) == Lexer(ts + ArmTokens(pattern, action), Between)
  {
    var l := Lexer(ts, Between);
    var ts1 := ts + [WordToken(PlainWord(pattern))];
    var ts2 := ts1 + [Operator(")")];
    var ts3 := ts2 + [WordToken(PlainWord(action))];
    WordThenOperator(ts, pattern, ')');
    FeedConcat(l, pattern + ")", " ");
    OperatorThenBlank(ts1, ')');
    FeedConcat(l, pattern + ")" + " ", action + " ");
    WordThenBlank(ts2, action);
    FeedConcat(l, pattern + ")" + " " + (action + " "), ";;");
    FeedConcat(l, pattern + ")" + " " + (action + " ") + ";;", " ");
    DoubleSemicolonBlank(ts3);
    assert ts3 + [Operator(";;")] == ts + ArmTokens(pattern, action);
  }

  ghost predicate IsFixedWord(s: string) {
    IsWordStart(s) && forall i :: 0 <= i < |s| ==> Inert(s[i])
  }

  ghost predicate AllFixed(words: seq<string>) {
    forall i :: 0 <= i < |words| ==> IsFixedWord(words[i])
  }

  lemma FixedTokens(words: seq<string>, s: string)
    requires AllFixed(words)
    ensures Words(Fixed(words) + Quote(s)) == Some(words + [s])
  {
    FixedWords(words);
    FeedConcat(START, Fixed(words), Quote(s));
    var ts := Feed(START, Fixed(words)).tokens;
    QuotedDecodes(ts, s, CLOSE_ESCAPE_REOPEN);
    FieldOfQuoted(s, map[]);
    assert (ts + [WordToken(QuotedWord(s))])[..|ts|] == ts;
  }

  lemma {:induction false} FixedWords(words: seq<string>)
    requires AllFixed(words)
    ensures Feed(START, Fixed(words)).mode == Between
    ensures Argv(Feed(START, Fixed(words)).tokens, map[]) == Some(words)
    decreases |words|
  {
    if words != [] {
      var n := |words| - 1;
      FixedWords(words[..n]);
      var ts := Feed(START, Fixed(words[..n])).tokens;
      FeedConcat(START, Fixed(words[..n]), words[n] + " ");
      WordThenBlank(ts, words[n]);
      FieldOfPlain(words[n], map[]);
      assert (ts + [WordToken(PlainWord(words[n]))])[..|ts|] == ts;
      assert words[..n] + [words[n]] == words;
    }
  }

  lemma ArmAfterBar(ts: seq<Token>, pattern: string, action: string)
    requires IsWordStart(pattern) && IsWordStart(action)
    ensures Feed(Lexer(ts, InOperator("|")), CaseArm(pattern, action))
         == Lexer(ts + [Operator("|")] + ArmTokens(pattern, action), Between)
  {
    var arm := CaseArm(pattern, action);
    assert arm[0] == pattern[0] && IsPlain(arm[0]);
    AfterOperator(ts, '|', arm);
    CaseArmTokens(ts + [Operator("|")], pattern, action);
  }

  lemma CaseHeadTokens(ts: seq<Token>, base: string, first: string)
    requires IsExpansion(base) && IsWordStart(first)
    ensures Feed(Lexer(ts, Between), CaseHead(base, first))
         == Lexer(ts + [WordToken(PlainWord("case"))] + [WordToken([Param(base, true)])] + [WordToken(PlainWord("in"))]
                  + [WordToken(PlainWord(first))], InOperator("|"))
  {
    var l := Lexer(ts, Between);
    var subject := "\"" + ("${" + base + "}") + "\"" + " ";
    assert "case" + " " == "case " && "in" + " " == "in ";
    WordThenBlank(ts, "case");
    FeedConcat(l, "case ", subject);
    var ts1 := ts + [WordToken(PlainWord("case"))];
    QuotedBracesThenBlank(ts1, base);
    var ts2 := ts1 + [WordToken([Param(base, true)])];
    FeedConcat(l, "case " + subject, "in ");
    WordThenBlank(ts2, "in");
    FeedConcat(l, "case " + subject + "in ", first + "|");
    WordThenOperator(ts2 + [WordToken(PlainWord("in"))], first, '|');
  }

  ghost predicate IsPattern(s: string) {
    IsFixedWord(s) && s != "esac"
  }

  ghost predicate WellFormed(t: LoginText) {
    && IsName(t.shellVar) && IsName(t.flagsVar) && IsName(t.sourceVar) && t.shellVar != t.flagsVar
    && IsExpansion(t.fallback) && IsPattern(t.csh) && IsPattern(t.tcsh)
    && AllPlain(t.cshFlags) && AllPlain(t.otherFlags)
  }

  lemma EsacTokens(ts: seq<Token>)
    ensures Feed(Lexer(ts, Between), "esac;" + " ")
        == Lexer(ts + [WordToken(PlainWord("esac"))] + [Operator(";")], Between)
  {
    assert "esac" + [';'] == "esac;";
    WordThenOperator(ts, "esac", ';');
    FeedConcat(Lexer(ts, Between), "esac;", " ");
    OperatorThenBlank(ts + [WordToken(PlainWord("esac"))], ';');
  }

  function ShellAssignment(t: LoginText): Token {
    WordToken(PlainWord(t.shellVar + "=") + [Param(t.sourceVar + (":-" + t.fallback), false)])
  }

  function FlagsAssignment(t: LoginText, flags: string): Token {
    WordToken(PlainWord(t.flagsVar + ("=" + flags)))
  }

  // The tokens of the setup in the order in which the lexer collects them.
  function SetupTokenList(t: LoginText): seq<Token> {
    [ShellAssignment(t), Operator(";")]
    + [WordToken(PlainWord("case"))] + [WordToken([Param(t.shellVar + "##*/", true)])] + [WordToken(PlainWord("in"))]
    + [WordToken(PlainWord(t.csh))] + [Operator("|")]
    + ArmTokens(t.tcsh, t.flagsVar + ("=" + t.cshFlags))
    + ArmTokens("*", t.flagsVar + ("=" + t.otherFlags))
    + [WordToken(PlainWord("esac"))] + [Operator(";")]
  }

  // The setup lexes to complete commands and leaves the lexer between two commands.
  lemma SetupTokens(t: LoginText)
    requires WellFormed(t)
    ensures Feed(START, Setup(t)) == Lexer(SetupTokenList(t), Between)
  {
    var assign, shell, base := t.shellVar + "=", t.sourceVar + (":-" + t.fallback), t.shellVar + "##*/";
    var cshFlags, otherFlags := t.flagsVar + ("=" + t.cshFlags), t.flagsVar + ("=" + t.otherFlags);
    SetupWordsAreWellFormed(t);
    PiecesTokens(assign, shell, base, t.csh, t.tcsh, cshFlags, otherFlags);
  }

  lemma SetupWordsAreWellFormed(t: LoginText)
    requires WellFormed(t)
    ensures IsWordStart(t.shellVar + "=") && IsExpansion(t.sourceVar + (":-" + t.fallback))
        && IsExpansion(t.shellVar + "##*/")
    ensures IsWordStart(t.flagsVar + ("=" + t.cshFlags)) && IsWordStart(t.flagsVar + ("=" + t.otherFlags))
  {
    NameThenPlain(t.shellVar, "=");
    NameThenExpansion(t.sourceVar, ":-" + t.fallback);
    NameThenExpansion(t.shellVar, "##*/");
    NameThenPlain(t.flagsVar, "=" + t.cshFlags);
    NameThenPlain(t.flagsVar, "=" + t.otherFlags);
  }

  lemma PiecesTokens(assign: string, shell: string, base: string, csh: string, tcsh: string, cshFlags: string,
      otherFlags: string)
    requires IsWordStart(assign) && IsExpansion(shell) && IsExpansion(base)
    requires IsWordStart(csh) && IsWordStart(tcsh) && IsWordStart(cshFlags) && IsWordStart(otherFlags)
    ensures Feed(START, Assignment(assign, shell) + CaseHead(base, csh)
                        + CaseArm(tcsh, cshFlags) + CaseArm("*", otherFlags)
                        + ("esac;" + " "))
         == Lexer([WordToken(PlainWord(assign) + [Param(shell, false)]), Operator(";")]
                  + [WordToken(PlainWord("case"))] + [WordToken([Param(base, true)])] + [WordToken(PlainWord("in"))]
                  + [WordToken(PlainWord(csh))] + [Operator("|")]
                  + ArmTokens(tcsh, cshFlags) + ArmTokens("*", otherFlags)
                  + [WordToken(PlainWord("esac"))] + [Operator(";")], Between)
  {
    var s1, s2, s3, s4 := Assignment(assign, shell), CaseHead(base, csh), CaseArm(tcsh, cshFlags),
        CaseArm("*", otherFlags);
    var ts1 := [WordToken(PlainWord(assign) + [Param(shell, false)]), Operator(";")];
    AssignmentTokens(assign, shell);
    FeedConcat(START, s1, s2);
    CaseHeadTokens(ts1, base, csh);
    var ts2 := ts1 + [WordToken(PlainWord("case"))] + [WordToken([Param(base, true)])] + [WordToken(PlainWord("in"))]
               + [WordToken(PlainWord(csh))];
    FeedConcat(START, s1 + s2, s3);
    ArmAfterBar(ts2, tcsh, cshFlags);
    var ts3 := ts2 + [Operator("|")] + ArmTokens(tcsh, cshFlags);
    FeedConcat(START, s1 + s2 + s3, s4);
    StarIsWord();
    CaseArmTokens(ts3, "*", otherFlags);
    FeedConcat(START, s1 + s2 + s3 + s4, "esac;" + " ");
    EsacTokens(ts3 + ArmTokens("*", otherFlags));
  }

  lemma StarIsWord()
    ensures IsWordStart("*")
  {
  }

  // What the setup leaves in its two variables: the user's shell, and flags that fit it.
  function LoginShell(t: LoginText, env: Env): string {
    if Lookup(t.sourceVar, env) == "" then t.fallback else Lookup(t.sourceVar, env)
  }

  function LoginFlags(t: LoginText, env: Env): string {
    var base := AfterLastSlash(LoginShell(t, env));
    if base == t.csh || base == t.tcsh then t.cshFlags else t.otherFlags
  }

  function LoginEnv(t: LoginText, env: Env): Env {
    env[t.shellVar := LoginShell(t, env)][t.flagsVar := LoginFlags(t, env)]
  }

  lemma ShellIsAssigned(t: LoginText, env: Env)
    requires WellFormed(t)
    ensures Assigned(ShellAssignment(t), env) == Some(env[t.shellVar := LoginShell(t, env)])
  {
    var text := t.sourceVar + (":-" + t.fallback);
    PlainWordConcat(t.shellVar, "=");
    assert PlainWord("=") == [Plain('=')];
    Assoc(PlainWord(t.shellVar), [Plain('=')], [Param(text, false)]);
    ParamWithDefault(t.sourceVar, t.fallback, env);
    ValueOfParam(text, false, env);
    AssignmentAssigns(t.shellVar, [Param(text, false)], env);
  }

  lemma FlagsAreAssigned(t: LoginText, flags: string, env: Env)
    requires WellFormed(t)
    ensures Assigned(FlagsAssignment(t, flags), env) == Some(env[t.flagsVar := flags])
  {
    PlainWordConcat(t.flagsVar, "=" + flags);
    PlainWordConcat("=", flags);
    assert PlainWord("=") == [Plain('=')];
    ValueOfPlain(flags, env);
    AssignmentAssigns(t.flagsVar, PlainWord(flags), env);
  }

  lemma PatternIsLiteral(p: string, s: string)
    requires IsPattern(p)
    ensures Matches(p, s) == Some(p == s)
  {
    assert Inert(p[0]);
  }

  // The case command as a whole: exactly one of its arms sets the flags.
  lemma CaseSetsFlags(t: LoginText, rest: seq<Token>, env: Env)
    requires WellFormed(t) && t.shellVar in env
    ensures var base := AfterLastSlash(env[t.shellVar]);
      var flags := if base == t.csh || base == t.tcsh then t.cshFlags else t.otherFlags;
      Run([WordToken(PlainWord("case")), WordToken([Param(t.shellVar + "##*/", true)]), WordToken(PlainWord("in"))]
          + ([WordToken(PlainWord(t.csh)), Operator("|"), WordToken(PlainWord(t.tcsh)), Operator(")"),
              FlagsAssignment(t, t.cshFlags), Operator(";;")]
             + ([WordToken(PlainWord("*")), Operator(")"), FlagsAssignment(t, t.otherFlags), Operator(";;")]
                + ([WordToken(PlainWord("esac")), Operator(";")] + rest))), env)
      == Run(rest, env[t.flagsVar := flags])
  {
    var base := AfterLastSlash(env[t.shellVar]);
    var csh, other := FlagsAssignment(t, t.cshFlags), FlagsAssignment(t, t.otherFlags);
    var last := [WordToken(PlainWord("esac")), Operator(";")] + rest;
    var second := [WordToken(PlainWord("*")), Operator(")"), other, Operator(";;")] + last;
    var first := [WordToken(PlainWord(t.csh)), Operator("|"), WordToken(PlainWord(t.tcsh)), Operator(")"),
                  csh, Operator(";;")] + second;
    ParamBasename(t.shellVar, env);
    ValueOfParam(t.shellVar + "##*/", true, env);
    RunCase([Param(t.shellVar + "##*/", true)], first, env);
    PatternIsLiteral(t.csh, base);
    PatternIsLiteral(t.tcsh, base);
    FlagsAreAssigned(t, t.cshFlags, env);
    TwoPatternsAssign(t.csh, t.tcsh, csh, second, base, env, false);
    var chosen := base == t.csh || base == t.tcsh;
    var e := if chosen then env[t.flagsVar := t.cshFlags] else env;
    FlagsAreAssigned(t, t.otherFlags, e);
    ArmAssigns("*", other, last, base, e, chosen);
    ArmsEnd(rest, base, if chosen then e else env[t.flagsVar := t.otherFlags], true);
  }

  lemma Regroup<T>(x: seq<T>, c1: T, c2: T, c3: T, c4: T, c5: T, a1: T, a2: T, a3: T, a4: T, b: seq<T>, d1: T, d2: T,
      rest: seq<T>)
    ensures x + [c1] + [c2] + [c3] + [c4] + [c5] + [a1, a2, a3, a4] + b + [d1] + [d2] + rest
         == x + ([c1, c2, c3] + ([c4, c5, a1, a2, a3, a4] + (b + ([d1, d2] + rest))))
  {
    assert [c4] + [c5] + [a1, a2, a3, a4] == [c4, c5, a1, a2, a3, a4] && [c1] + [c2] + [c3] == [c1, c2, c3]
        && [d1] + [d2] == [d1, d2];
  }

  // The setup sets the two variables and nothing else, whatever command follows.
  lemma SetupSets(t: LoginText, command: seq<Token>, env: Env)
    requires WellFormed(t)
    ensures Run(SetupTokenList(t) + command, env) == Run(command, LoginEnv(t, env))
  {
    var case0, subject, in0 := WordToken(PlainWord("case")), WordToken([Param(t.shellVar + "##*/", true)]),
        WordToken(PlainWord("in"));
    var csh, tcsh, star, esac := WordToken(PlainWord(t.csh)), WordToken(PlainWord(t.tcsh)), WordToken(PlainWord("*")),
        WordToken(PlainWord("esac"));
    Regroup([ShellAssignment(t), Operator(";")], case0, subject, in0, csh, Operator("|"),
            tcsh, Operator(")"), FlagsAssignment(t, t.cshFlags), Operator(";;"),
            ArmTokens("*", t.flagsVar + ("=" + t.otherFlags)), esac, Operator(";"), command);
    var arms := [csh, Operator("|"), tcsh, Operator(")"), FlagsAssignment(t, t.cshFlags), Operator(";;")]
                + (ArmTokens("*", t.flagsVar + ("=" + t.otherFlags)) + ([esac, Operator(";")] + command));
    ShellIsAssigned(t, env);
    RunAssignment(ShellAssignment(t), [case0, subject, in0] + arms, env);
    CaseSetsFlags(t, command, env[t.shellVar := LoginShell(t, env)]);
  }

  function HandOverTokenList(ts: seq<Token>, shell: string, flags: string): seq<Token> {
    ts + [WordToken(PlainWord("exec"))] + [WordToken([Param(shell, true)])] + [WordToken([Param(flags, true)])]
  }

  // The command that a login script hands over to, up to its quoted last argument.
  lemma HandOverTokens(ts: seq<Token>, shell: string, flags: string)
    requires IsName(shell) && IsName(flags)
    ensures Feed(Lexer(ts, Between), HandOver(shell, flags))
         == Lexer(HandOverTokenList(ts, shell, flags), Between)
  {
    var l := Lexer(ts, Between);
    assert "exec" + " " == "exec ";
    WordThenBlank(ts, "exec");
    var ts1 := ts + [WordToken(PlainWord("exec"))];
    FeedConcat(l, "exec ", "\"$" + shell + "\" ");
    QuotedNameThenBlank(ts1, shell);
    FeedConcat(l, "exec " + ("\"$" + shell + "\" "), "\"$" + flags + "\" ");
    QuotedNameThenBlank(ts1 + [WordToken([Param(shell, true)])], flags);
  }

  // One more word makes one more argument.
  lemma ArgvGrows(ts: seq<Token>, w: Word, args: seq<string>, field: string, env: Env)
    requires Argv(ts, env) == Some(args) && Field(w, env) == Some(field)
    ensures Argv(ts + [WordToken(w)], env) == Some(args + [field])
  {
    FrontOfAppended(ts, WordToken(w));
  }

  lemma HandOverArgv(shell: string, flags: string, inner: string, env: Env)
    requires shell in env && flags in env
    ensures Argv(HandOverTokenList([], shell, flags) + [WordToken(QuotedWord(inner))], env)
         == Some(["exec", env[shell], env[flags], inner])
  {
    FieldOfPlain("exec", env);
    FieldOfParam(shell, env);
    FieldOfParam(flags, env);
    FieldOfQuoted(inner, env);
    var none: seq<Token> := [];
    var ts2 := none + [WordToken(PlainWord("exec"))];
    var ts3 := ts2 + [WordToken([Param(shell, true)])];
    var ts4 := ts3 + [WordToken([Param(flags, true)])];
    ArgvGrows(none, PlainWord("exec"), [], "exec", env);
    ArgvGrows(ts2, [Param(shell, true)], [] + ["exec"], env[shell], env);
    ArgvGrows(ts3, [Param(flags, true)], [] + ["exec"] + [env[shell]], env[flags], env);
    ArgvGrows(ts4, QuotedWord(inner), [] + ["exec"] + [env[shell]] + [env[flags]], inner, env);
    FourOf("exec", env[shell], env[flags], inner);
  }

  // The hand-over is the last command: it assigns nothing and is no case.
  lemma HandOverIsLast(shell: string, flags: string, inner: string, env: Env)
    ensures var command := HandOverTokenList([], shell, flags) + [WordToken(QuotedWord(inner))];
      Run(command, env) == Some((env, command))
  {
    var command := HandOverTokenList([], shell, flags) + [WordToken(QuotedWord(inner))];
    assert command[1] == WordToken([Param(shell, true)]);
    assert command[0] == WordToken(PlainWord("exec"));
    PlainTextOfPlain("exec");
    assert "exec"[0] != "case"[0];
  }

  lemma FourOf<T>(a: T, b: T, c: T, d: T)
    ensures [] + [a] + [b] + [c] + [d] == [a, b, c, d]
  {
  }

  lemma TokensOfThree(a: string, b: string, c: string, before: seq<Token>, after: seq<Token>, w: Word)
    requires Feed(START, a) == Lexer(before, Between) && Feed(Lexer(before, Between), b) == Lexer(after, Between)
    requires Feed(Lexer(after, Between), c) == Lexer(after, Bare(w))
    ensures Tokens(a + b + c) == Some(after + [WordToken(w)])
  {
    FeedConcat(START, a, b);
    FeedConcat(START, a + b, c);
  }

  lemma HandOverBehind(ts: seq<Token>, shell: string, flags: string, w: Token)
    ensures HandOverTokenList(ts, shell, flags) + [w] == ts + (HandOverTokenList([], shell, flags) + [w])
  {
  }

  lemma NameThenPlain(name: string, s: string)
    requires IsName(name) && AllPlain(s)
    ensures IsWordStart(name + s)
  {
    forall i | 0 <= i < |name + s| ensures IsPlain((name + s)[i]) {
      assert (name + s)[i] == if i < |name| then name[i] else s[i - |name|];
    }
  }

  lemma NameThenExpansion(name: string, s: string)
    requires IsName(name) && IsExpansion(s)
    ensures IsExpansion(name + s)
  {
    forall i | 0 <= i < |name + s| ensures IsBraceText((name + s)[i]) {
      assert (name + s)[i] == if i < |name| then name[i] else s[i - |name|];
    }
  }

  lemma LoginNamesAreWellFormed()
    ensures IsName(LOGIN.shellVar) && IsName(LOGIN.flagsVar) && IsName(LOGIN.sourceVar)
        && LOGIN.shellVar != LOGIN.flagsVar
  {
    assert LOGIN.shellVar[0] != LOGIN.flagsVar[0];
  }

  lemma LoginWordsAreWellFormed()
    ensures IsExpansion(LOGIN.fallback) && IsPattern(LOGIN.csh) && IsPattern(LOGIN.tcsh)
    ensures AllPlain(LOGIN.cshFlags) && AllPlain(LOGIN.otherFlags)
  {
    assert LOGIN.csh[0] == 'c' && LOGIN.tcsh[0] == 't';
  }

  lemma CommandWordsAreFixed()
    ensures AllFixed(EXEC_SH) && AllFixed(SH_C)
  {
    assert IsFixedWord("exec") && IsFixedWord("/bin/sh");
    assert IsFixedWord("sh") && IsFixedWord("-c");
  }

  function LastCommand(t: LoginText, inner: string): seq<Token> {
    HandOverTokenList([], t.shellVar, t.flagsVar) + [WordToken(QuotedWord(inner))]
  }

  lemma LoginTokens(t: LoginText, inner: string)
    requires WellFormed(t)
    ensures Tokens(LoginScript(t, inner)) == Some(SetupTokenList(t) + LastCommand(t, inner))
  {
    var before := SetupTokenList(t);
    var after := HandOverTokenList(before, t.shellVar, t.flagsVar);
    SetupTokens(t);
    HandOverTokens(before, t.shellVar, t.flagsVar);
    QuotedDecodes(after, inner, CLOSE_ESCAPE_REOPEN);
    TokensOfThree(Setup(t), HandOver(t.shellVar, t.flagsVar), Quote(inner), before, after, QuotedWord(inner));
    HandOverBehind(before, t.shellVar, t.flagsVar, WordToken(QuotedWord(inner)));
  }

  // The shell that a login command ends up running, with flags that fit it, gets the inner script
  // unchanged, in every environment.
  lemma LoginHandsOver(t: LoginText, inner: string, env: Env)
    requires WellFormed(t)
    ensures FinalArgv(LoginScript(t, inner), env) == Some(["exec", LoginShell(t, env), LoginFlags(t, env), inner])
  {
    LoginTokens(t, inner);
    SetupSets(t, LastCommand(t, inner), env);
    HandOverIsLast(t.shellVar, t.flagsVar, inner, LoginEnv(t, env));
    HandOverArgv(t.shellVar, t.flagsVar, inner, LoginEnv(t, env));
  }

  // A user without a shell of their own gets the fallback, and csh and tcsh, wherever they are
  // installed, are started without the login flag that they do not take.
  lemma LoginChoosesShell(dir: string, base: string, env: Env)
    requires '/' !in base && base != "" && (dir == "" || dir[|dir| - 1] == '/')
    ensures LOGIN.sourceVar !in env ==> LoginShell(LOGIN, env) == "/bin/sh"
    ensures var e := env[LOGIN.sourceVar := dir + base];
      && LoginShell(LOGIN, e) == dir + base
      && LoginFlags(LOGIN, e) == if base == "csh" || base == "tcsh" then "-ic" else "-lic"
  {
    BasenameOf(dir, base);
  }

  lemma {:induction false} BasenameOf(dir: string, base: string)
    requires '/' !in base && (dir == "" || dir[|dir| - 1] == '/')
    ensures AfterLastSlash(dir + base) == base
    decreases |base|
  {
    if base == "" {
      assert dir + base == dir;
    } else {
      var n := |base| - 1;
      assert (dir + base)[..|dir + base| - 1] == dir + base[..n];
      BasenameOf(dir, base[..n]);
      assert base == base[..n] + [base[n]];
    }
  }

  lemma LoginIsWellFormed()
    ensures WellFormed(LOGIN)
  {
    LoginNamesAreWellFormed();
    LoginWordsAreWellFormed();
  }

  datatype Wrapped = Wrapped(argv: seq<string>) | Unsupported

  // base is the transport's own command line, as ResumeCommand gives it.
  function WrapRemoteTransport(kind: string, base: seq<string>, script: string): Wrapped {
    if kind == "" || kind == "ssh" || kind == "codespace" then
      Wrapped(base + [Fixed(SH_C) + Quote(InteractiveLoginCommand(script))])
    else if kind == "devcontainer" then
      Wrapped(base + (SH_C + [InteractiveLoginCommand(script)]))
    else
      Unsupported
  }

  lemma PrefixOf<T>(a: seq<T>, b: seq<T>)
    ensures (a + b)[..|a|] == a && (a + b)[|a|..] == b
  {
  }
}
