/**
 Quoting and token recognition of the shell command language, after POSIX.1-2017, Shell Command
 Language, section 2.2 (Quoting) and section 2.3 (Token Recognition). Command substitution,
 arithmetic expansion, special and positional parameters and quoting inside ${...} are outside
 the fragment: the lexer gets stuck on them and then answers nothing.
 */
module ShellLexer {
  import opened Prelude

  // A character of a word keeps track of whether it was quoted; expansions are left unexpanded.
  datatype Piece = Plain(c: char) | Quoted(c: char) | Param(text: string, quoted: bool)

  type Word = seq<Piece>

  datatype Token = WordToken(word: Word) | Operator(text: string)

  datatype Mode =
    | Between
    | InOperator(text: string)
    | InComment
    | Bare(word: Word)
    | BareEscape(word: Word, started: bool)
    | Single(word: Word)
    | Double(word: Word)
    | DoubleEscape(word: Word)
    | Dollar(word: Word, quoted: bool)
    | Name(word: Word, quoted: bool, name: string)
    | Brace(word: Word, quoted: bool, text: string)
    | Stuck

  datatype Lexer = Lexer(tokens: seq<Token>, mode: Mode)

  predicate IsBlank(c: char) { c == ' ' || c == '\t' }

  predicate IsOperatorStart(c: char) {
    c == ';' || c == '|' || c == '&' || c == '<' || c == '>' || c == '(' || c == ')' || c == '\n'
  }

  // Does text followed by c begin one of && || ;; << >> <& >& <> >| <<- ?
  predicate ExtendsOperator(text: string, c: char) {
    if |text| == 1 then
      match c
      case '&' => text[0] == '&' || text[0] == '<' || text[0] == '>'
      case '|' => text[0] == '|' || text[0] == '>'
      case ';' => text[0] == ';'
      case '<' => text[0] == '<'
      case '>' => text[0] == '<' || text[0] == '>'
      case _ => false
    else |text| == 2 && c == '-' && text[0] == text[1] == '<'
  }

  predicate IsNameStart(c: char) { 'a' <= c <= 'z' || 'A' <= c <= 'Z' || c == '_' }

  predicate IsNameChar(c: char) { IsNameStart(c) || '0' <= c <= '9' }

  // An unquoted character inside a word.
  function StepBare(ts: seq<Token>, w: Word, c: char): Lexer {
    if c == '\\' then Lexer(ts, BareEscape(w, true))
    else if c == '\'' then Lexer(ts, Single(w))
    else if c == '"' then Lexer(ts, Double(w))
    else if c == '$' then Lexer(ts, Dollar(w, false))
    else if c == '`' then Lexer(ts, Stuck)
    else if IsOperatorStart(c) then Lexer(ts + [WordToken(w)], InOperator([c]))
    else if IsBlank(c) then Lexer(ts + [WordToken(w)], Between)
    else Lexer(ts, Bare(w + [Plain(c)]))
  }

  // A character where no token has begun.
  function StepBetween(ts: seq<Token>, c: char): Lexer {
    if IsOperatorStart(c) then Lexer(ts, InOperator([c]))
    else if IsBlank(c) then Lexer(ts, Between)
    else if c == '#' then Lexer(ts, InComment)
    else if c == '\\' then Lexer(ts, BareEscape([], false))
    else StepBare(ts, [], c)
  }

  function StepDouble(ts: seq<Token>, w: Word, c: char): Lexer {
    if c == '"' then Lexer(ts, Bare(w))
    else if c == '\\' then Lexer(ts, DoubleEscape(w))
    else if c == '$' then Lexer(ts, Dollar(w, true))
    else if c == '`' then Lexer(ts, Stuck)
    else Lexer(ts, Double(w + [Quoted(c)]))
  }

  function Step(l: Lexer, c: char): Lexer {
    var ts := l.tokens;
    match l.mode
    case Between => StepBetween(ts, c)
    case InOperator(text) =>
      if ExtendsOperator(text, c) then Lexer(ts, InOperator(text + [c]))
      else StepBetween(ts + [Operator(text)], c)
    case InComment => if c == '\n' then Lexer(ts, InOperator("\n")) else l
    case Bare(w) => StepBare(ts, w, c)
    case BareEscape(w, started) =>
      if c != '\n' then Lexer(ts, Bare(w + [Quoted(c)]))
      else if started then Lexer(ts, Bare(w)) else Lexer(ts, Between)
    case Single(w) => if c == '\'' then Lexer(ts, Bare(w)) else Lexer(ts, Single(w + [Quoted(c)]))
    case Double(w) => StepDouble(ts, w, c)
    case DoubleEscape(w) =>
      if c == '\n' then Lexer(ts, Double(w))
      else if c == '$' || c == '`' || c == '"' || c == '\\' then Lexer(ts, Double(w + [Quoted(c)]))
      else Lexer(ts, Double(w + [Quoted('\\'), Quoted(c)]))
    case Dollar(w, q) =>
      if c == '{' then Lexer(ts, Brace(w, q, ""))
      else if IsNameStart(c) then Lexer(ts, Name(w, q, [c]))
      else Lexer(ts, Stuck)
    case Name(w, q, name) =>
      if IsNameChar(c) then Lexer(ts, Name(w, q, name + [c]))
      else if q then StepDouble(ts, w + [Param(name, true)], c)
      else StepBare(ts, w + [Param(name, false)], c)
    case Brace(w, q, text) =>
      if c == '}' then Lexer(ts, if q then Double(w + [Param(text, true)]) else Bare(w + [Param(text, false)]))
      else if c == '\'' || c == '"' || c == '\\' || c == '$' || c == '`' then Lexer(ts, Stuck)
      else Lexer(ts, Brace(w, q, text + [c]))
    case Stuck => l
  }

  const START := Lexer([], Between)

  function Feed(l: Lexer, s: string): Lexer
    decreases |s|
  {
    if s == "" then l else Feed(Step(l, s[0]), s[1..])
  }

  // End of input delimits the current token; an open quote or expansion is an error.
  function Finish(l: Lexer): Option<seq<Token>> {
    match l.mode
    case Between => Some(l.tokens)
    case InComment => Some(l.tokens)
    case InOperator(text) => Some(l.tokens + [Operator(text)])
    case Bare(w) => Some(l.tokens + [WordToken(w)])
    case Name(w, false, name) => Some(l.tokens + [WordToken(w + [Param(name, false)])])
    case _ => None
  }

  function Tokens(script: string): Option<seq<Token>> {
    Finish(Feed(START, script))
  }

  lemma {:induction false} FeedConcat(l: Lexer, a: string, b: string)
    ensures Feed(l, a + b) == Feed(Feed(l, a), b)
    decreases |a|
  {
    if a == "" {
      assert a + b == b;
    } else {
      assert (a + b)[1..] == a[1..] + b;
      FeedConcat(Step(l, a[0]), a[1..], b);
    }
  }

  // Variables in scope where a command runs.
  type Env = map<string, string>

  // Unquoted characters that no expansion and no pattern match would touch.
  predicate Inert(c: char) {
    c != '*' && c != '?' && c != '[' && c != '~' && c != '=' && c != '%'
  }

  function PieceText(p: Piece, env: Env): Option<string> {
    match p
    case Quoted(c) => Some([c])
    case Plain(c) => if Inert(c) then Some([c]) else None
    case Param(name, quoted) => if quoted && name in env then Some(env[name]) else None
  }

  // The one field a word stands for; none if expansion could split it, drop it or match files.
  function Field(w: Word, env: Env): Option<string> {
    if w == [] then Some("")
    else
      match (PieceText(w[0], env), Field(w[1..], env))
      case (Some(s), Some(t)) => Some(s + t)
      case _ => None
  }

  // The argument vector of a simple command, given as its tokens.
  function Argv(ts: seq<Token>, env: Env): Option<seq<string>> {
    if ts == [] then Some([])
    else
      match (Argv(ts[..|ts| - 1], env), ts[|ts| - 1])
      case (Some(args), WordToken(w)) =>
        (match Field(w, env) case Some(f) => Some(args + [f]) case None => None)
      case _ => None
  }

  // The words of a script that is one simple command without expansions.
  function Words(script: string): Option<seq<string>> {
    match Tokens(script) case Some(ts) => Argv(ts, map[]) case None => None
  }

  // Runs of characters that keep the lexer in one mode.

  predicate IsPlain(c: char) {
    c != '\\' && c != '\'' && c != '"' && c != '$' && c != '`' && !IsOperatorStart(c) && !IsBlank(c)
  }

  ghost predicate AllPlain(s: string) {
    forall i :: 0 <= i < |s| ==> IsPlain(s[i])
  }

  function PlainWord(s: string): Word {
    if s == "" then [] else [Plain(s[0])] + PlainWord(s[1..])
  }

  function QuotedWord(s: string): Word {
    if s == "" then [] else [Quoted(s[0])] + QuotedWord(s[1..])
  }

  lemma {:induction false} FeedPlain(ts: seq<Token>, w: Word, s: string)
    requires AllPlain(s)
    ensures Feed(Lexer(ts, Bare(w)), s) == Lexer(ts, Bare(w + PlainWord(s)))
    decreases |s|
  {
    if s == "" {
      assert w + [] == w;
    } else {
      FeedPlain(ts, w + [Plain(s[0])], s[1..]);
      assert w + [Plain(s[0])] + PlainWord(s[1..]) == w + PlainWord(s);
    }
  }

  lemma FeedWordStart(ts: seq<Token>, s: string)
    requires s != "" && AllPlain(s) && s[0] != '#'
    ensures Feed(Lexer(ts, Between), s) == Lexer(ts, Bare(PlainWord(s)))
  {
    FeedPlain(ts, [Plain(s[0])], s[1..]);
    assert [] + [Plain(s[0])] == [Plain(s[0])];
  }

  lemma {:induction false} FeedName(ts: seq<Token>, w: Word, q: bool, name: string, s: string)
    requires forall i :: 0 <= i < |s| ==> IsNameChar(s[i])
    ensures Feed(Lexer(ts, Name(w, q, name)), s) == Lexer(ts, Name(w, q, name + s))
    decreases |s|
  {
    if s == "" {
      assert name + s == name;
    } else {
      FeedName(ts, w, q, name + [s[0]], s[1..]);
      assert name + [s[0]] + s[1..] == name + s;
    }
  }

  predicate IsBraceText(c: char) {
    c != '}' && c != '\'' && c != '"' && c != '\\' && c != '$' && c != '`'
  }

  lemma {:induction false} FeedBrace(ts: seq<Token>, w: Word, q: bool, text: string, s: string)
    requires forall i :: 0 <= i < |s| ==> IsBraceText(s[i])
    ensures Feed(Lexer(ts, Brace(w, q, text)), s) == Lexer(ts, Brace(w, q, text + s))
    decreases |s|
  {
    if s == "" {
      assert text + s == text;
    } else {
      FeedBrace(ts, w, q, text + [s[0]], s[1..]);
      assert text + [s[0]] + s[1..] == text + s;
    }
  }

  lemma FeedOne(l: Lexer, c: char)
    ensures Feed(l, [c]) == Step(l, c)
  {
    assert Feed(Step(l, c), [c][1..]) == Step(l, c);
  }

  lemma {:induction false} FieldOfQuoted(s: string, env: Env)
    ensures Field(QuotedWord(s), env) == Some(s)
  {
    if s != "" {
      FieldOfQuoted(s[1..], env);
      assert [s[0]] + s[1..] == s;
    }
  }

  lemma {:induction false} FieldOfPlain(s: string, env: Env)
    requires forall i :: 0 <= i < |s| ==> Inert(s[i])
    ensures Field(PlainWord(s), env) == Some(s)
  {
    if s != "" {
      FieldOfPlain(s[1..], env);
      assert [s[0]] + s[1..] == s;
    }
  }

  lemma FieldOfParam(name: string, env: Env)
    requires name in env
    ensures Field([Param(name, true)], env) == Some(env[name])
  {
    assert env[name] + "" == env[name];
  }
}
