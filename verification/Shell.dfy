/**
 What the shell's parser computes: tokens and command trees of a command line, as functions of the line and a
 position in it. Words are kept as spans of the line, the way the C structures keep pointer pairs.
 */
module Shell {

  const MAXARGS := 10
  const NUL := '\0'

  predicate IsSpace(c: char) {
    c == ' ' || c == '\t' || c == '\r' || c == '\n' || c == '\U{0B}'
  }

  predicate IsSymbol(c: char) {
    c == '<' || c == '|' || c == '>' || c == '&' || c == ';' || c == '(' || c == ')'
  }

  predicate InWord(c: char) {
    !IsSpace(c) && !IsSymbol(c)
  }

  // ---------------------------------------------------------------- tokens

  function SkipSpace(s: string, i: nat): (j: nat)
    requires i <= |s|
    ensures i <= j <= |s|
    ensures j < |s| ==> !IsSpace(s[j])
    ensures forall k :: i <= k < j ==> IsSpace(s[k])
    decreases |s| - i
  {
    if i < |s| && IsSpace(s[i]) then SkipSpace(s, i + 1) else i
  }

  function WordEnd(s: string, i: nat): (j: nat)
    requires i <= |s|
    ensures i <= j <= |s|
    ensures j < |s| ==> !InWord(s[j])
    ensures forall k :: i <= k < j ==> InWord(s[k])
    decreases |s| - i
  {
    if i < |s| && InWord(s[i]) then WordEnd(s, i + 1) else i
  }

  /** What gettoken returns: 0, the symbol, '+' for ">>", 'a' for a word. */
  datatype Token = End | Symbol(c: char) | Append | Word

  /** The token, its first position and the one past it, and where the next scan starts. */
  datatype Lexeme = Lexeme(tok: Token, q: nat, eq: nat, next: nat)

  function TokenAt(s: string, q: nat): (Token, nat)
    requires q <= |s|
  {
    if q == |s| then (End, q)
    else if s[q] == '>' then (if q + 1 < |s| && s[q + 1] == '>' then (Append, q + 2) else (Symbol('>'), q + 1))
    else if IsSymbol(s[q]) then (Symbol(s[q]), q + 1)
    else (Word, WordEnd(s, q))
  }

  function Gettoken(s: string, i: nat): (l: Lexeme)
    requires i <= |s|
    ensures i <= l.q <= l.eq <= l.next <= |s|
    ensures l.tok != End ==> l.q < l.eq
    ensures l.tok == Word ==> IsToken(s, Span(l.q, l.eq))
  {
    var q := SkipSpace(s, i);
    var (tok, eq) := TokenAt(s, q);
    Lexeme(tok, q, eq, SkipSpace(s, eq))
  }

  predicate PeekAt(s: string, i: nat, toks: string)
    requires i <= |s|
  {
    SkipSpace(s, i) < |s| && s[SkipSpace(s, i)] in toks
  }

  // ---------------------------------------------------------------- commands

  datatype Span = Span(q: nat, eq: nat)

  /** A maximal run of word characters. */
  predicate IsToken(s: string, w: Span) {
    && w.q < w.eq <= |s|
    && (forall k :: w.q <= k < w.eq ==> InWord(s[k]))
    && (w.eq < |s| ==> !InWord(s[w.eq]))
  }

  datatype Mode = RdOnly | WrOnlyCreate

  datatype Redirection = Redirection(file: Span, mode: Mode, fd: nat)

  datatype Cmd =
    | Exec(argv: seq<Span>)
    | Redir(cmd: Cmd, r: Redirection)
    | Pipe(left: Cmd, right: Cmd)
    | List(left: Cmd, right: Cmd)
    | Back(cmd: Cmd)

  datatype Error = MissingFile | MissingParen | Syntax | TooManyArgs | Leftovers

  datatype Result<T> = Ok(value: T, pos: nat) | Fail(error: Error)

  /** Redirections wrap a command, the first one innermost. */
  function Wrap(cmd: Cmd, rs: seq<Redirection>): Cmd {
    if rs == [] then cmd else Redir(Wrap(cmd, rs[..|rs| - 1]), rs[|rs| - 1])
  }

  ghost predicate WordsOk(s: string, ws: seq<Span>) {
    forall k :: 0 <= k < |ws| ==> IsToken(s, ws[k])
  }

  ghost predicate FilesOk(s: string, rs: seq<Redirection>) {
    forall k :: 0 <= k < |rs| ==> IsToken(s, rs[k].file)
  }

  /** All words of a command are tokens of the line, and no command has too many. */
  ghost predicate SpansOk(s: string, c: Cmd) {
    match c
    case Exec(argv) => WordsOk(s, argv) && |argv| < MAXARGS
    case Redir(d, r) => SpansOk(s, d) && IsToken(s, r.file)
    case Pipe(l, r) => SpansOk(s, l) && SpansOk(s, r)
    case List(l, r) => SpansOk(s, l) && SpansOk(s, r)
    case Back(d) => SpansOk(s, d)
  }

  lemma {:induction false} WrapOk(s: string, c: Cmd, rs: seq<Redirection>)
    requires SpansOk(s, c) && FilesOk(s, rs)
    ensures SpansOk(s, Wrap(c, rs))
  {
    if rs != [] {
      WrapOk(s, c, rs[..|rs| - 1]);
    }
  }

  /** '<' reads standard input from the file; '>' and ">>" both write standard output to it. */
  function RedirectionFor(tok: Token, file: Span): Redirection {
    if tok == Symbol('<') then Redirection(file, RdOnly, 0) else Redirection(file, WrOnlyCreate, 1)
  }

  // ---------------------------------------------------------------- the grammar

  function Redirs(s: string, i: nat, rs: seq<Redirection>): (r: Result<seq<Redirection>>)
    requires i <= |s| && FilesOk(s, rs)
    ensures r.Ok? ==> i <= r.pos <= |s| && FilesOk(s, r.value)
    decreases |s| - i
  {
    var p := SkipSpace(s, i);
    if !PeekAt(s, i, "<>") then Ok(rs, p) else
    var t := Gettoken(s, p);
    var f := Gettoken(s, t.next);
    if f.tok != Word then Fail(MissingFile)
    else Redirs(s, f.next, rs + [RedirectionFor(t.tok, Span(f.q, f.eq))])
  }

  /** The loop of parseexec: words and redirections in any order. */
  function Args(s: string, i: nat, argv: seq<Span>, rs: seq<Redirection>): (r: Result<Cmd>)
    requires i <= |s| && FilesOk(s, rs) && WordsOk(s, argv) && |argv| < MAXARGS
    ensures r.Ok? ==> i <= r.pos <= |s| && SpansOk(s, r.value)
    decreases |s| - i
  {
    WrapOk(s, Exec(argv), rs);
    var p := SkipSpace(s, i);
    if PeekAt(s, i, "|)&;") then Ok(Wrap(Exec(argv), rs), p) else
    var t := Gettoken(s, p);
    if t.tok == End then Ok(Wrap(Exec(argv), rs), t.next)
    else if t.tok != Word then Fail(Syntax)
    else if |argv| + 1 >= MAXARGS then Fail(TooManyArgs)
    else
      var r := Redirs(s, t.next, rs);
      if r.Fail? then Fail(r.error) else Args(s, r.pos, argv + [Span(t.q, t.eq)], r.value)
  }

  function ParseExec(s: string, i: nat): (r: Result<Cmd>)
    requires i <= |s|
    ensures r.Ok? ==> i <= r.pos <= |s| && SpansOk(s, r.value)
    decreases |s| - i, 1
  {
    var p := SkipSpace(s, i);
    if PeekAt(s, i, "(") then ParseBlock(s, p) else
    var r := Redirs(s, p, []);
    if r.Fail? then Fail(r.error) else Args(s, r.pos, [], r.value)
  }

  function ParseBlock(s: string, p: nat): (r: Result<Cmd>)
    requires p < |s| && s[p] == '('
    ensures r.Ok? ==> p <= r.pos <= |s| && SpansOk(s, r.value)
    decreases |s| - p, 0
  {
    var t := Gettoken(s, p);
    var c := ParseLine(s, t.next);
    if c.Fail? then c
    else if !PeekAt(s, c.pos, ")") then Fail(MissingParen)
    else
      var u := Gettoken(s, c.pos);
      var r := Redirs(s, u.next, []);
      if r.Fail? then Fail(r.error) else
      WrapOk(s, c.value, r.value);
      Ok(Wrap(c.value, r.value), r.pos)
  }

  function ParsePipe(s: string, i: nat): (r: Result<Cmd>)
    requires i <= |s|
    ensures r.Ok? ==> i <= r.pos <= |s| && SpansOk(s, r.value)
    decreases |s| - i, 2
  {
    var c := ParseExec(s, i);
    if c.Fail? then c
    else if !PeekAt(s, c.pos, "|") then Ok(c.value, SkipSpace(s, c.pos))
    else
      var t := Gettoken(s, c.pos);
      var d := ParsePipe(s, t.next);
      if d.Fail? then d else Ok(Pipe(c.value, d.value), d.pos)
  }

  /** Any number of '&'. */
  function Backs(s: string, i: nat, c: Cmd): (r: (Cmd, nat))
    requires i <= |s| && SpansOk(s, c)
    ensures i <= r.1 <= |s| && SpansOk(s, r.0)
    decreases |s| - i
  {
    if !PeekAt(s, i, "&") then (c, SkipSpace(s, i)) else Backs(s, Gettoken(s, i).next, Back(c))
  }

  function ParseLine(s: string, i: nat): (r: Result<Cmd>)
    requires i <= |s|
    ensures r.Ok? ==> i <= r.pos <= |s| && SpansOk(s, r.value)
    decreases |s| - i, 3
  {
    var c := ParsePipe(s, i);
    if c.Fail? then c else
    var (b, p) := Backs(s, c.pos, c.value);
    if !PeekAt(s, p, ";") then Ok(b, SkipSpace(s, p)) else
    var d := ParseLine(s, Gettoken(s, p).next);
    if d.Fail? then d else Ok(List(b, d.value), d.pos)
  }

  /** parsecmd: the whole line must be used up. */
  function Parse(s: string): (r: Result<Cmd>)
    ensures r.Ok? ==> r.pos == |s| && SpansOk(s, r.value)
  {
    var c := ParseLine(s, 0);
    if c.Fail? then c
    else if SkipSpace(s, c.pos) != |s| then Fail(Leftovers)
    else Ok(c.value, |s|)
  }
}
