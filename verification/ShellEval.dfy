/**
 What a straight-line script does: variable assignments and case commands whose arms assign
 variables, up to a last simple command. After POSIX.1-2017, Shell Command Language, section 2.6.2
 (Parameter Expansion), section 2.9.1 (Simple Commands) and section 2.9.4.3 (Case Conditional
 Construct). On anything else, and on patterns other than literals and a lone *, there is no answer.
 */
module ShellEval {
  import opened Prelude
  import opened ShellLexer

  predicate IsName(s: string) {
    s != "" && IsNameStart(s[0]) && forall i :: 0 <= i < |s| ==> IsNameChar(s[i])
  }

  // How many characters of s, from the start, can belong to a name.
  function NameLength(s: string): (n: nat)
    ensures n <= |s|
  {
    if s == "" || !IsNameChar(s[0]) then 0 else 1 + NameLength(s[1..])
  }

  lemma {:induction false} NameEnds(name: string, rest: string)
    requires forall i :: 0 <= i < |name| ==> IsNameChar(name[i])
    requires rest == "" || !IsNameChar(rest[0])
    ensures NameLength(name + rest) == |name|
  {
    if name == "" {
      assert name + rest == rest;
    } else {
      assert (name + rest)[1..] == name[1..] + rest;
      NameEnds(name[1..], rest);
    }
  }

  // What follows the last slash.
  function AfterLastSlash(s: string): string {
    if s == "" || s[|s| - 1] == '/' then "" else AfterLastSlash(s[..|s| - 1]) + [s[|s| - 1]]
  }

  function Lookup(name: string, env: Env): string {
    if name in env then env[name] else ""
  }

  // ${name}, ${name:-word} and ${name##*/}
  function ParamValue(text: string, env: Env): Option<string> {
    var n := NameLength(text);
    var v, op := Lookup(text[..n], env), text[n..];
    if !IsName(text[..n]) then None
    else if op == "" then Some(v)
    else if |op| >= 2 && op[0] == ':' && op[1] == '-' then Some(if v == "" then op[2..] else v)
    else if op == "##*/" then Some(AfterLastSlash(v))
    else None
  }

  // The value of a word where no field splitting and no pathname expansion happens.
  function Value(w: Word, env: Env): Option<string> {
    if w == [] then Some("")
    else
      var head :=
        match w[0] case Plain(c) => Some([c]) case Quoted(c) => Some([c]) case Param(text, _) => ParamValue(text, env);
      match (head, Value(w[1..], env))
      case (Some(s), Some(t)) => Some(s + t)
      case _ => None
  }

  // The text of a word without quotes and expansions.
  function PlainText(w: Word): Option<string> {
    if w == [] then Some("")
    else
      match (w[0], PlainText(w[1..]))
      case (Plain(c), Some(t)) => Some([c] + t)
      case _ => None
  }

  predicate IsKeyword(t: Token, keyword: string) {
    t.WordToken? && PlainText(t.word) == Some(keyword)
  }

  // Index of the first unquoted equals sign, or |w|.
  function EqualsIndex(w: Word): (i: nat)
    ensures i <= |w|
  {
    if w == [] || w[0] == Plain('=') then 0 else 1 + EqualsIndex(w[1..])
  }

  // The environment after an assignment; none if the token is not one.
  function Assigned(t: Token, env: Env): Option<Env> {
    if t.Operator? then None
    else
      var i := EqualsIndex(t.word);
      if i == |t.word| then None
      else
        match (PlainText(t.word[..i]), Value(t.word[i + 1..], env))
        case (Some(name), Some(v)) => if IsName(name) then Some(env[name := v]) else None
        case _ => None
  }

  // Does a pattern match? Only literals and a lone * are understood.
  function Matches(pattern: string, s: string): Option<bool> {
    if pattern == "*" then Some(true)
    else if forall i :: 0 <= i < |pattern| ==> Inert(pattern[i]) then Some(pattern == s)
    else None
  }

  // The patterns of one arm, through the closing parenthesis.
  function Patterns(ts: seq<Token>, subject: string): (r: Option<(bool, seq<Token>)>)
    ensures r.Some? ==> |r.value.1| < |ts|
  {
    if |ts| < 2 || ts[0].Operator? || PlainText(ts[0].word).None? then None
    else
      match Matches(PlainText(ts[0].word).value, subject)
      case None => None
      case Some(m) =>
        if ts[1] == Operator(")") then Some((m, ts[2..]))
        else if ts[1] == Operator("|") then
          match Patterns(ts[2..], subject) case Some((n, rest)) => Some((m || n, rest)) case None => None
        else None
  }

  // The arms of a case command, through esac; the first one that matches assigns.
  function Arms(ts: seq<Token>, subject: string, env: Env, chosen: bool): (r: Option<(Env, seq<Token>)>)
    ensures r.Some? ==> |r.value.1| < |ts|
    decreases |ts|
  {
    if |ts| < 2 then None
    else if IsKeyword(ts[0], "esac") then if ts[1] == Operator(";") then Some((env, ts[2..])) else None
    else
      match Patterns(ts, subject)
      case None => None
      case Some((m, rest)) =>
        if |rest| < 2 || rest[1] != Operator(";;") || Assigned(rest[0], env).None? then None
        else Arms(rest[2..], subject, if m && !chosen then Assigned(rest[0], env).value else env, chosen || m)
  }

  // The environment in which the last command runs, and that command.
  function Run(ts: seq<Token>, env: Env): Option<(Env, seq<Token>)>
    decreases |ts|
  {
    if |ts| >= 2 && ts[1] == Operator(";") && Assigned(ts[0], env).Some? then Run(ts[2..], Assigned(ts[0], env).value)
    else if |ts| >= 3 && IsKeyword(ts[0], "case") && ts[1].WordToken? && IsKeyword(ts[2], "in") then
      match Value(ts[1].word, env)
      case None => None
      case Some(subject) =>
        (match Arms(ts[3..], subject, env, false)
         case Some((e, rest)) => Run(rest, e)
         case None => None)
    else Some((env, ts))
  }

  // The argument vector that a script ends up running.
  function FinalArgv(script: string, env: Env): Option<seq<string>> {
    match Tokens(script)
    case Some(ts) => (match Run(ts, env) case Some((e, command)) => Argv(command, e) case None => None)
    case None => None
  }

  lemma {:induction false} PlainTextOfPlain(s: string)
    ensures PlainText(PlainWord(s)) == Some(s)
  {
    if s != "" {
      PlainTextOfPlain(s[1..]);
      assert [s[0]] + s[1..] == s;
    }
  }

  lemma {:induction false} ValueOfPlain(s: string, env: Env)
    ensures Value(PlainWord(s), env) == Some(s)
  {
    if s != "" {
      ValueOfPlain(s[1..], env);
      assert [s[0]] + s[1..] == s;
    }
  }

  lemma ValueOfParam(text: string, quoted: bool, env: Env)
    ensures Value([Param(text, quoted)], env) == ParamValue(text, env)
  {
    match ParamValue(text, env)
    case Some(v) => assert v + "" == v;
    case None =>
  }

  lemma ParamWithDefault(name: string, word: string, env: Env)
    requires IsName(name)
    ensures ParamValue(name + (":-" + word), env) == Some(if Lookup(name, env) == "" then word else Lookup(name, env))
  {
    var text, op := name + (":-" + word), ":-" + word;
    NameEnds(name, op);
    assert text[..|name|] == name && text[|name|..] == op && op[2..] == word;
  }

  lemma ParamBasename(name: string, env: Env)
    requires IsName(name)
    ensures ParamValue(name + "##*/", env) == Some(AfterLastSlash(Lookup(name, env)))
  {
    var text := name + "##*/";
    NameEnds(name, "##*/");
    assert text[..|name|] == name && text[|name|..] == "##*/";
  }

  lemma {:induction false} PlainWordConcat(a: string, b: string)
    ensures PlainWord(a + b) == PlainWord(a) + PlainWord(b)
  {
    if a == "" {
      assert a + b == b;
    } else {
      assert (a + b)[1..] == a[1..] + b;
      PlainWordConcat(a[1..], b);
    }
  }

  lemma {:induction false} EqualsFound(name: string, w: Word)
    requires forall i :: 0 <= i < |name| ==> name[i] != '='
    ensures EqualsIndex(PlainWord(name) + ([Plain('=')] + w)) == |PlainWord(name)| == |name|
  {
    var tail := [Plain('=')] + w;
    if name == "" {
      assert PlainWord(name) + tail == tail;
    } else {
      assert (PlainWord(name) + tail)[1..] == PlainWord(name[1..]) + tail;
      EqualsFound(name[1..], w);
    }
  }

  // name=value, whatever pieces the value is written in.
  lemma AssignmentAssigns(name: string, w: Word, env: Env)
    requires IsName(name) && Value(w, env).Some?
    ensures Assigned(WordToken(PlainWord(name) + ([Plain('=')] + w)), env) == Some(env[name := Value(w, env).value])
  {
    var word := PlainWord(name) + ([Plain('=')] + w);
    EqualsFound(name, w);
    PlainTextOfPlain(name);
    assert word[..|name|] == PlainWord(name) && word[|name| + 1..] == w;
  }

  lemma RunAssignment(t: Token, rest: seq<Token>, env: Env)
    requires Assigned(t, env).Some?
    ensures Run([t, Operator(";")] + rest, env) == Run(rest, Assigned(t, env).value)
  {
    assert ([t, Operator(";")] + rest)[2..] == rest;
  }

  lemma RunCase(subject: Word, arms: seq<Token>, env: Env)
    requires Value(subject, env).Some?
    ensures var ts := [WordToken(PlainWord("case")), WordToken(subject), WordToken(PlainWord("in"))] + arms;
      Run(ts, env) == match Arms(arms, Value(subject, env).value, env, false)
                      case Some((e, rest)) => Run(rest, e)
                      case None => None
  {
    var ts := [WordToken(PlainWord("case")), WordToken(subject), WordToken(PlainWord("in"))] + arms;
    PlainTextOfPlain("case");
    PlainTextOfPlain("in");
    assert ts[3..] == arms;
    assert ts[1] != Operator(";");
  }

  // pattern) assignment ;;
  lemma ArmAssigns(pattern: string, t: Token, rest: seq<Token>, subject: string, env: Env, chosen: bool)
    requires pattern != "esac" && Matches(pattern, subject).Some? && Assigned(t, env).Some?
    ensures var m := Matches(pattern, subject).value;
      Arms([WordToken(PlainWord(pattern)), Operator(")"), t, Operator(";;")] + rest, subject, env, chosen)
      == Arms(rest, subject, if m && !chosen then Assigned(t, env).value else env, chosen || m)
  {
    var ts := [WordToken(PlainWord(pattern)), Operator(")"), t, Operator(";;")] + rest;
    PlainTextOfPlain(pattern);
    assert ts[2..][0] == t && ts[2..][1] == Operator(";;") && ts[2..][2..] == rest;
  }

  // first|second) assignment ;;
  lemma TwoPatternsAssign(first: string, second: string, t: Token, rest: seq<Token>, subject: string, env: Env,
      chosen: bool)
    requires first != "esac" && Matches(first, subject).Some? && Matches(second, subject).Some?
        && Assigned(t, env).Some?
    ensures var m := Matches(first, subject).value || Matches(second, subject).value;
      Arms([WordToken(PlainWord(first)), Operator("|"), WordToken(PlainWord(second)), Operator(")"), t, Operator(";;")]
           + rest,
           subject, env, chosen)
      == Arms(rest, subject, if m && !chosen then Assigned(t, env).value else env, chosen || m)
  {
    var ts := [WordToken(PlainWord(first)), Operator("|"), WordToken(PlainWord(second)), Operator(")"),
               t, Operator(";;")] + rest;
    PlainTextOfPlain(first);
    PlainTextOfPlain(second);
    var after := ts[2..];
    assert after[0] == WordToken(PlainWord(second)) && after[1] == Operator(")");
    assert after[2..][0] == t && after[2..][1] == Operator(";;") && after[2..][2..] == rest;
    assert Patterns(after, subject) == Some((Matches(second, subject).value, after[2..]));
  }

  lemma ArmsEnd(rest: seq<Token>, subject: string, env: Env, chosen: bool)
    ensures Arms([WordToken(PlainWord("esac")), Operator(";")] + rest, subject, env, chosen) == Some((env, rest))
  {
    PlainTextOfPlain("esac");
    assert ([WordToken(PlainWord("esac")), Operator(";")] + rest)[2..] == rest;
  }
}
