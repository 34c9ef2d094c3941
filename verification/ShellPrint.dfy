/** The parser undoes a printer that parenthesises every part of a command. */
module ShellPrint {
  import opened Shell

  /** A command with its words spelled out. */
  datatype Tree =
    | TExec(words: seq<string>)
    | TRedir(cmd: Tree, file: string, out: bool)
    | TPipe(left: Tree, right: Tree)
    | TList(left: Tree, right: Tree)
    | TBack(cmd: Tree)

  predicate GoodWord(w: string) {
    w != "" && forall k :: 0 <= k < |w| ==> InWord(w[k])
  }

  predicate Good(t: Tree) {
    match t
    case TExec(words) => |words| < MAXARGS && forall k :: 0 <= k < |words| ==> GoodWord(words[k])
    case TRedir(c, file, _) => Good(c) && GoodWord(file)
    case TPipe(l, r) => Good(l) && Good(r)
    case TList(l, r) => Good(l) && Good(r)
    case TBack(c) => Good(c)
  }

  function Size(t: Tree): nat {
    match t
    case TExec(_) => 0
    case TRedir(c, _, _) => Size(c) + 1
    case TPipe(l, r) => Size(l) + Size(r) + 1
    case TList(l, r) => Size(l) + Size(r) + 1
    case TBack(c) => Size(c) + 1
  }

  function PrintWords(words: seq<string>): string {
    if words == [] then "" else words[0] + " " + PrintWords(words[1..])
  }

  function Paren(t: Tree): string
    decreases t, 1
  {
    "(" + Print(t) + ")"
  }

  function Print(t: Tree): string
    decreases t, 0
  {
    match t
    case TExec(words) => PrintWords(words)
    case TRedir(c, file, out) => Paren(c) + (if out then ">" else "<") + file + " "
    case TPipe(l, r) => Paren(l) + "|" + Paren(r)
    case TList(l, r) => Paren(l) + ";" + Paren(r)
    case TBack(c) => Paren(c) + "&"
  }

  function Spell(s: string, w: Span): string
    requires w.q <= w.eq <= |s|
  {
    s[w.q..w.eq]
  }

  /** The tree a parsed command stands for. */
  ghost function Reads(s: string, c: Cmd): Tree
    requires SpansOk(s, c)
  {
    match c
    case Exec(argv) => TExec(seq(|argv|, k requires 0 <= k < |argv| => assert IsToken(s, argv[k]); Spell(s, argv[k])))
    case Redir(d, r) => TRedir(Reads(s, d), Spell(s, r.file), r.mode == WrOnlyCreate)
    case Pipe(l, r) => TPipe(Reads(s, l), Reads(s, r))
    case List(l, r) => TList(Reads(s, l), Reads(s, r))
    case Back(d) => TBack(Reads(s, d))
  }

  /** text stands in s at i. */
  predicate At(s: string, i: nat, text: string) {
    i + |text| <= |s| && s[i..i + |text|] == text
  }

  lemma AtSplit(s: string, i: nat, a: string, b: string)
    ensures At(s, i, a + b) <==> At(s, i, a) && At(s, i + |a|, b)
  {
    if At(s, i, a + b) {
      assert s[i..i + |a|] == s[i..i + |a + b|][..|a|] && s[i + |a|..i + |a| + |b|] == s[i..i + |a + b|][|a|..];
    }
  }

  lemma AtChar(s: string, i: nat, c: char)
    ensures At(s, i, [c]) <==> i < |s| && s[i] == c
  {
  }

  /** What can follow a printed command: the end of the line or a closing parenthesis. */
  predicate Closed(s: string, j: nat) {
    j == |s| || (j < |s| && s[j] == ')')
  }

  predicate Tight(s: string, j: nat) {
    j <= |s| && (j < |s| ==> !IsSpace(s[j]))
  }

  lemma SkipNone(s: string, j: nat)
    requires Tight(s, j)
    ensures SkipSpace(s, j) == j
  {
  }

  lemma SkipOne(s: string, j: nat)
    requires j < |s| && s[j] == ' ' && Tight(s, j + 1)
    ensures SkipSpace(s, j) == j + 1
  {
    SkipNone(s, j + 1);
  }

  /** A word and the blank behind it. */
  lemma WordToken(s: string, i: nat, w: string)
    requires GoodWord(w) && At(s, i, w + " ") && Tight(s, i + |w| + 1)
    ensures Gettoken(s, i) == Lexeme(Word, i, i + |w|, i + |w| + 1)
    ensures Tight(s, i) && s[i] == w[0] && s[i..i + |w|] == w
  {
    AtSplit(s, i, w, " ");
    AtChar(s, i + |w|, ' ');
    assert forall k :: 0 <= k < |w| ==> s[i + k] == w[k];
    SkipNone(s, i);
    EndOfWord(s, i, i + |w|);
    SkipOne(s, i + |w|);
  }

  lemma {:induction false} EndOfWord(s: string, i: nat, j: nat)
    requires i <= j < |s| && !InWord(s[j]) && forall k :: i <= k < j ==> InWord(s[k])
    ensures WordEnd(s, i) == j
    decreases j - i
  {
    if i < j {
      EndOfWord(s, i + 1, j);
    }
  }

  lemma SymbolToken(s: string, i: nat)
    requires i < |s| && IsSymbol(s[i]) && Tight(s, i + 1)
    requires s[i] == '>' && i + 1 < |s| ==> s[i + 1] != '>'
    ensures Gettoken(s, i) == Lexeme(Symbol(s[i]), i, i + 1, i + 1)
  {
    SkipNone(s, i);
    SkipNone(s, i + 1);
  }

  /** A printed command begins tight, whatever closes it. */
  lemma PrintTight(s: string, i: nat, t: Tree)
    requires Good(t) && At(s, i, Print(t)) && Closed(s, i + |Print(t)|)
    ensures Tight(s, i)
    ensures !t.TExec? ==> i < |s| && s[i] == '('
    ensures t.TExec? ==> i == |s| || (s[i] != '(' && s[i] != '<' && s[i] != '>')
    ensures t.TExec? && t.words == [] ==> Closed(s, i)
    ensures t.TExec? && t.words != [] ==> i < |s| && InWord(s[i])
  {
    if t.TExec? && t.words == [] {
    } else {
      assert s[i] == s[i..i + |Print(t)|][0] == Print(t)[0];
      if t.TExec? {
        assert GoodWord(t.words[0]);
      }
    }
  }

  // ---------------------------------------------------------------- one step of each parser

  lemma PeekTight(s: string, i: nat, toks: string)
    requires Tight(s, i)
    ensures PeekAt(s, i, toks) <==> i < |s| && s[i] in toks
  {
    SkipNone(s, i);
  }

  lemma RedirsNone(s: string, j: nat, rs: seq<Redirection>)
    requires Tight(s, j) && (j < |s| ==> s[j] != '<' && s[j] != '>') && FilesOk(s, rs)
    ensures Redirs(s, j, rs) == Ok(rs, j)
  {
    hide SkipSpace, Gettoken, PeekAt;
    SkipNone(s, j);
    PeekTight(s, j, "<>");
  }

  lemma RedirsMore(s: string, i: nat, file: Span)
    requires Tight(s, i) && i < |s| && (s[i] == '<' || s[i] == '>')
    requires Gettoken(s, i) == Lexeme(Symbol(s[i]), i, i + 1, i + 1)
    requires i < |s| && Gettoken(s, i + 1) == Lexeme(Word, file.q, file.eq, file.eq + 1)
    ensures file.eq < |s| && IsToken(s, file)
    ensures Redirs(s, i, []) == Redirs(s, file.eq + 1, [RedirectionFor(Symbol(s[i]), file)])
  {
    hide SkipSpace, PeekAt, TokenAt;
    SkipNone(s, i);
    PeekTight(s, i, "<>");
    assert [] + [RedirectionFor(Symbol(s[i]), file)] == [RedirectionFor(Symbol(s[i]), file)];
  }

  lemma ArgsStop(s: string, i: nat, argv: seq<Span>)
    requires Closed(s, i) && WordsOk(s, argv) && |argv| < MAXARGS
    ensures Args(s, i, argv, []) == Ok(Exec(argv), i)
  {
    hide SkipSpace, PeekAt, WordsOk;
    SkipNone(s, i);
    PeekTight(s, i, "|)&;");
  }

  lemma ArgsMore(s: string, i: nat, argv: seq<Span>, w: Span)
    requires Tight(s, i) && i < |s| && InWord(s[i]) && WordsOk(s, argv) && |argv| + 1 < MAXARGS
    requires Gettoken(s, i) == Lexeme(Word, w.q, w.eq, w.eq + 1)
    requires w.eq < |s| && Redirs(s, w.eq + 1, []) == Ok([], w.eq + 1)
    ensures IsToken(s, w) && WordsOk(s, argv + [w])
    ensures Args(s, i, argv, []) == Args(s, w.eq + 1, argv + [w], [])
  {
    hide SkipSpace, PeekAt, TokenAt, Redirs;
    SkipNone(s, i);
    PeekTight(s, i, "|)&;");
  }

  lemma ExecArgs(s: string, i: nat)
    requires Tight(s, i) && (i < |s| ==> s[i] != '(' && s[i] != '<' && s[i] != '>')
    ensures ParseExec(s, i) == Args(s, i, [], [])
  {
    hide SkipSpace, PeekAt, Redirs, Args, ParseBlock;
    SkipNone(s, i);
    PeekTight(s, i, "(");
    RedirsNone(s, i, []);
  }

  lemma ExecBlock(s: string, i: nat, c: Cmd, j: nat, rs: seq<Redirection>, p: nat)
    requires Tight(s, i) && i < |s| && s[i] == '(' && Gettoken(s, i).next == i + 1
    requires ParseLine(s, i + 1) == Ok(c, j) && j < |s| && s[j] == ')'
    requires Redirs(s, Gettoken(s, j).next, []) == Ok(rs, p)
    ensures ParseExec(s, i) == Ok(Wrap(c, rs), p)
  {
    hide SkipSpace, PeekAt, TokenAt, Redirs, Args, ParseLine;
    SkipNone(s, i);
    PeekTight(s, i, "(");
    PeekTight(s, j, ")");
  }

  lemma PipeStop(s: string, i: nat, c: Cmd, j: nat)
    requires i <= |s| && ParseExec(s, i) == Ok(c, j) && Tight(s, j) && (j < |s| ==> s[j] != '|')
    ensures ParsePipe(s, i) == Ok(c, j)
  {
    hide SkipSpace, PeekAt, ParseExec;
    SkipNone(s, j);
    PeekTight(s, j, "|");
  }

  lemma PipeMore(s: string, i: nat, c: Cmd, j: nat, d: Cmd, p: nat)
    requires i <= |s| && ParseExec(s, i) == Ok(c, j) && j < |s| && s[j] == '|' && Gettoken(s, j).next == j + 1
    requires ParsePipe(s, j + 1) == Ok(d, p)
    ensures ParsePipe(s, i) == Ok(Pipe(c, d), p)
  {
    hide SkipSpace, PeekAt, ParseExec, TokenAt;
    PeekTight(s, j, "|");
  }

  lemma BacksStop(s: string, i: nat, c: Cmd)
    requires SpansOk(s, c) && Tight(s, i) && (i < |s| ==> s[i] != '&')
    ensures Backs(s, i, c) == (c, i)
  {
    hide SkipSpace, PeekAt;
    SkipNone(s, i);
    PeekTight(s, i, "&");
  }

  lemma BacksOne(s: string, j: nat, c: Cmd)
    requires SpansOk(s, c) && j < |s| && s[j] == '&' && Gettoken(s, j).next == j + 1
    requires Tight(s, j + 1) && (j + 1 < |s| ==> s[j + 1] != '&')
    ensures Backs(s, j, c) == (Back(c), j + 1)
  {
    hide SkipSpace, PeekAt, TokenAt;
    PeekTight(s, j, "&");
    BacksStop(s, j + 1, Back(c));
  }

  /** A line that ends after its first pipeline and the `&`s behind it. */
  lemma LineStop(s: string, i: nat, c: Cmd, j: nat, b: Cmd, p: nat)
    requires i <= |s| && ParsePipe(s, i) == Ok(c, j) && j <= |s| && SpansOk(s, c) && Backs(s, j, c) == (b, p) && Closed(s, p)
    ensures ParseLine(s, i) == Ok(b, p)
  {
    hide SkipSpace, PeekAt, ParsePipe, Backs;
    SkipNone(s, p);
    PeekTight(s, p, ";");
  }

  lemma LineMore(s: string, i: nat, c: Cmd, j: nat, d: Cmd, p: nat)
    requires i <= |s| && ParsePipe(s, i) == Ok(c, j) && SpansOk(s, c) && j < |s| && s[j] == ';' && Gettoken(s, j).next == j + 1
    requires ParseLine(s, j + 1) == Ok(d, p)
    ensures ParseLine(s, i) == Ok(List(c, d), p)
  {
    hide SkipSpace, PeekAt, ParsePipe, Gettoken, Backs, SpansOk;
    BacksStop(s, j, c);
    PeekTight(s, j, ";");
  }

  // ---------------------------------------------------------------- parts of a command

  lemma RedirTokens(s: string, i: nat, file: string, out: bool)
    requires GoodWord(file) && At(s, i, (if out then ">" else "<") + file + " ") && Closed(s, i + |file| + 2)
    ensures i + |file| + 2 <= |s| && s[i] == (if out then '>' else '<') && Tight(s, i)
    ensures Gettoken(s, i) == Lexeme(Symbol(s[i]), i, i + 1, i + 1)
    ensures Gettoken(s, i + 1) == Lexeme(Word, i + 1, i + 1 + |file|, i + |file| + 2)
    ensures s[i + 1..i + 1 + |file|] == file
  {
    hide Gettoken;
    var c := if out then '>' else '<';
    assert (if out then ">" else "<") + file + " " == [c] + (file + " ");
    AtSplit(s, i, [c], file + " ");
    AtChar(s, i, c);
    WordToken(s, i + 1, file);
    assert InWord(file[0]);
    SymbolToken(s, i);
  }

  lemma RedirsOne(s: string, i: nat, file: string, out: bool)
    requires GoodWord(file) && At(s, i, (if out then ">" else "<") + file + " ") && Closed(s, i + |file| + 2)
    ensures i < |s| && IsToken(s, Span(i + 1, i + 1 + |file|)) && Spell(s, Span(i + 1, i + 1 + |file|)) == file
    ensures Redirs(s, i, []) == Ok([RedirectionFor(Symbol(s[i]), Span(i + 1, i + 1 + |file|))], i + |file| + 2)
    ensures s[i] == if out then '>' else '<'
  {
    hide Gettoken, Redirs, At, GoodWord, IsToken;
    RedirTokens(s, i, file, out);
    var f := Span(i + 1, i + 1 + |file|);
    RedirsMore(s, i, f);
    RedirsNone(s, f.eq + 1, [RedirectionFor(Symbol(s[i]), f)]);
  }

  lemma {:induction false} ArgsOf(s: string, i: nat, words: seq<string>, argv: seq<Span>) returns (spans: seq<Span>)
    requires WordsOk(s, argv) && |argv| + |words| < MAXARGS
    requires Good(TExec(words)) && At(s, i, PrintWords(words)) && Closed(s, i + |PrintWords(words)|)
    ensures |spans| == |words| && WordsOk(s, spans)
    ensures forall k :: 0 <= k < |words| ==> Spell(s, spans[k]) == words[k]
    ensures Args(s, i, argv, []) == Ok(Exec(argv + spans), i + |PrintWords(words)|)
    decreases words
  {
    hide Gettoken, Redirs, Args, Tight, At, InWord, IsToken, GoodWord;
    if words == [] {
      spans := [];
      assert argv + spans == argv;
      ArgsStop(s, i, argv);
    } else {
      var w, rest := words[0], words[1..];
      FirstWord(s, i, words);
      var f := Span(i, i + |w|);
      RedirsNone(s, f.eq + 1, []);
      ArgsMore(s, i, argv, f);
      var more := ArgsOf(s, f.eq + 1, rest, argv + [f]);
      spans := [f] + more;
      assert argv + spans == argv + [f] + more;
    }
  }

  /** The first word of a printed command, and what stands behind it. */
  lemma FirstWord(s: string, i: nat, words: seq<string>)
    requires words != [] && Good(TExec(words)) && At(s, i, PrintWords(words)) && Closed(s, i + |PrintWords(words)|)
    ensures var w, rest := words[0], words[1..];
            && GoodWord(w) && Good(TExec(rest)) && |PrintWords(words)| == |w| + 1 + |PrintWords(rest)|
            && i + |w| + 1 <= |s| && s[i..i + |w|] == w && InWord(s[i]) && Tight(s, i)
            && Gettoken(s, i) == Lexeme(Word, i, i + |w|, i + |w| + 1)
            && At(s, i + |w| + 1, PrintWords(rest))
            && Tight(s, i + |w| + 1) && (i + |w| + 1 < |s| ==> s[i + |w| + 1] != '<' && s[i + |w| + 1] != '>')
  {
    hide Gettoken, At, InWord;
    var w, rest := words[0], words[1..];
    assert GoodWord(w) && InWord(w[0]);
    AtSplit(s, i, w + " ", PrintWords(rest));
    PrintTight(s, i + |w| + 1, TExec(rest));
    WordToken(s, i, w);
  }

  /** A parenthesised command up to its closing parenthesis. */
  lemma {:induction false} Inside(s: string, i: nat, t: Tree) returns (c: Cmd)
    requires Good(t) && At(s, i, Paren(t))
    ensures |Paren(t)| == |Print(t)| + 2 && i + |Print(t)| + 2 <= |s| && s[i] == '(' && s[i + |Print(t)| + 1] == ')'
    ensures Gettoken(s, i).next == i + 1
    ensures ParseLine(s, i + 1) == Ok(c, i + |Print(t)| + 1) && SpansOk(s, c) && Reads(s, c) == t
    decreases Size(t), 1
  {
    hide Gettoken, ParseLine, Print, Good, Reads, SpansOk;
    ParenAt(s, i, t);
    PrintTight(s, i + 1, t);
    SymbolToken(s, i);
    c := LineOf(s, i + 1, t);
  }

  lemma ParenAt(s: string, i: nat, t: Tree)
    requires At(s, i, Paren(t))
    ensures |Paren(t)| == |Print(t)| + 2 && i + |Print(t)| + 2 <= |s| && s[i] == '(' && s[i + |Print(t)| + 1] == ')'
    ensures At(s, i + 1, Print(t))
  {
    hide Print;
    AtSplit(s, i, "(" + Print(t), ")");
    AtSplit(s, i, "(", Print(t));
    AtChar(s, i, '(');
    AtChar(s, i + |Print(t)| + 1, ')');
  }

  lemma CloseToken(s: string, j: nat)
    requires j < |s| && s[j] == ')' && Tight(s, j + 1)
    ensures Gettoken(s, j).next == j + 1
  {
    SymbolToken(s, j);
  }

  /** A parenthesised command with nothing to redirect behind it. */
  lemma {:induction false} AtomOf(s: string, i: nat, t: Tree) returns (c: Cmd)
    requires Good(t) && At(s, i, Paren(t))
    requires var j := i + |Paren(t)|; Tight(s, j) && (j < |s| ==> s[j] != '<' && s[j] != '>')
    ensures i + |Paren(t)| <= |s| && s[i] == '('
    ensures ParseExec(s, i) == Ok(c, i + |Paren(t)|) && SpansOk(s, c) && Reads(s, c) == t
    decreases Size(t), 2
  {
    hide Gettoken, ParseLine, ParseExec, Redirs, Print, Paren, Good, Reads, SpansOk;
    c := Inside(s, i, t);
    var j := i + |Paren(t)|;
    RedirsNone(s, j, []);
    CloseToken(s, j - 1);
    ExecBlock(s, i, c, j - 1, [], j);
  }

  lemma ExecLine(s: string, i: nat, words: seq<string>) returns (c: Cmd)
    requires Good(TExec(words)) && At(s, i, Print(TExec(words))) && Closed(s, i + |Print(TExec(words))|)
    ensures ParseExec(s, i) == Ok(c, i + |Print(TExec(words))|) && SpansOk(s, c) && Reads(s, c) == TExec(words)
  {
    hide ParseExec, Args;
    PrintTight(s, i, TExec(words));
    ExecArgs(s, i);
    var spans := ArgsOf(s, i, words, []);
    assert [] + spans == spans;
    c := Exec(spans);
  }

  lemma {:induction false} RedirLine(s: string, i: nat, t: Tree, file: string, out: bool) returns (c: Cmd)
    requires Good(t) && GoodWord(file)
    requires At(s, i, Print(TRedir(t, file, out))) && Closed(s, i + |Print(TRedir(t, file, out))|)
    ensures ParseExec(s, i) == Ok(c, i + |Print(TRedir(t, file, out))|)
    ensures SpansOk(s, c) && Reads(s, c) == TRedir(t, file, out)
    decreases Size(t), 2
  {
    hide Gettoken, ParseLine, ParseExec, Redirs, Paren, Good, At;
    var sym := if out then ">" else "<";
    assert Print(TRedir(t, file, out)) == Paren(t) + (sym + file + " ");
    AtSplit(s, i, Paren(t), sym + file + " ");
    var d := Inside(s, i, t);
    var j := i + |Paren(t)|;
    RedirsOne(s, j, file, out);
    CloseToken(s, j - 1);
    var r := RedirectionFor(Symbol(s[j]), Span(j + 1, j + 1 + |file|));
    ExecBlock(s, i, d, j - 1, [r], j + |file| + 2);
    assert Wrap(d, [r]) == Redir(Wrap(d, []), r);
    c := Redir(d, r);
  }

  /** Nothing but one exec-like part on the line. */
  lemma WholeLine(s: string, i: nat, c: Cmd, j: nat)
    requires i <= |s| && ParseExec(s, i) == Ok(c, j) && Closed(s, j) && SpansOk(s, c)
    ensures ParsePipe(s, i) == Ok(c, j) && ParseLine(s, i) == Ok(c, j)
  {
    hide ParseExec, ParsePipe, ParseLine, SpansOk;
    PipeStop(s, i, c, j);
    BacksStop(s, j, c);
    LineStop(s, i, c, j, c, j);
  }

  lemma {:induction false} LineOf(s: string, i: nat, t: Tree) returns (c: Cmd)
    requires Good(t) && At(s, i, Print(t)) && Closed(s, i + |Print(t)|)
    ensures ParseLine(s, i) == Ok(c, i + |Print(t)|) && SpansOk(s, c) && Reads(s, c) == t
    decreases Size(t), 0
  {
    hide ParseExec, ParsePipe, ParseLine, Reads, SpansOk, Print, At, Closed;
    var end := i + |Print(t)|;
    match t
    case TExec(words) =>
      c := ExecLine(s, i, words);
      WholeLine(s, i, c, end);
    case TRedir(d, file, out) =>
      c := RedirLine(s, i, d, file, out);
      WholeLine(s, i, c, end);
    case TPipe(l, r) => c := PipeLine(s, i, l, r);
    case TList(l, r) => c := ListLine(s, i, l, r);
    case TBack(d) => c := BackLine(s, i, d);
  }

  /** Two parenthesised parts with a symbol between them. */
  lemma {:induction false} TwoParts(s: string, i: nat, l: Tree, r: Tree, sym: char) returns (c: Cmd, d: Cmd)
    requires Good(l) && Good(r) && (sym == '|' || sym == ';')
    requires At(s, i, Paren(l) + [sym] + Paren(r)) && Closed(s, i + |Paren(l)| + 1 + |Paren(r)|)
    ensures var j := i + |Paren(l)|;
            && j < |s| && s[j] == sym
            && ParseExec(s, i) == Ok(c, j) && SpansOk(s, c) && Reads(s, c) == l
            && Gettoken(s, j).next == j + 1
            && ParseExec(s, j + 1) == Ok(d, j + 1 + |Paren(r)|) && SpansOk(s, d) && Reads(s, d) == r
    decreases Size(l) + Size(r), 3
  {
    hide Gettoken, ParseExec, Paren, Good, Reads, SpansOk;
    var j := i + |Paren(l)|;
    AtSplit(s, i, Paren(l) + [sym], Paren(r));
    AtSplit(s, i, Paren(l), [sym]);
    AtChar(s, j, sym);
    c := AtomOf(s, i, l);
    d := AtomOf(s, j + 1, r);
    SymbolToken(s, j);
  }

  lemma {:induction false} PipeLine(s: string, i: nat, l: Tree, r: Tree) returns (c: Cmd)
    requires Good(TPipe(l, r)) && At(s, i, Print(TPipe(l, r))) && Closed(s, i + |Print(TPipe(l, r))|)
    ensures ParseLine(s, i) == Ok(c, i + |Print(TPipe(l, r))|) && SpansOk(s, c) && Reads(s, c) == TPipe(l, r)
    decreases Size(l) + Size(r), 4
  {
    hide Gettoken, ParseExec, ParsePipe, ParseLine, Paren, At;
    assert Print(TPipe(l, r)) == Paren(l) + ['|'] + Paren(r);
    var a, b := TwoParts(s, i, l, r, '|');
    c := Pipe(a, b);
    var j, end := i + |Paren(l)|, i + |Print(TPipe(l, r))|;
    WholeLine(s, j + 1, b, end);
    PipeMore(s, i, a, j, b, end);
    BacksStop(s, end, c);
    LineStop(s, i, c, end, c, end);
  }

  lemma {:induction false} ListLine(s: string, i: nat, l: Tree, r: Tree) returns (c: Cmd)
    requires Good(TList(l, r)) && At(s, i, Print(TList(l, r))) && Closed(s, i + |Print(TList(l, r))|)
    ensures ParseLine(s, i) == Ok(c, i + |Print(TList(l, r))|) && SpansOk(s, c) && Reads(s, c) == TList(l, r)
    decreases Size(l) + Size(r), 4
  {
    hide Gettoken, ParseExec, ParsePipe, ParseLine, Paren, At;
    assert Print(TList(l, r)) == Paren(l) + [';'] + Paren(r);
    var a, b := TwoParts(s, i, l, r, ';');
    c := List(a, b);
    var j, end := i + |Paren(l)|, i + |Print(TList(l, r))|;
    WholeLine(s, j + 1, b, end);
    PipeStop(s, i, a, j);
    LineMore(s, i, a, j, b, end);
  }

  lemma {:induction false} BackLine(s: string, i: nat, t: Tree) returns (c: Cmd)
    requires Good(TBack(t)) && At(s, i, Print(TBack(t))) && Closed(s, i + |Print(TBack(t))|)
    ensures ParseLine(s, i) == Ok(c, i + |Print(TBack(t))|) && SpansOk(s, c) && Reads(s, c) == TBack(t)
    decreases Size(t), 4
  {
    hide Gettoken, ParseExec, ParsePipe, ParseLine, Paren;
    var j, end := i + |Paren(t)|, i + |Print(TBack(t))|;
    AtSplit(s, i, Paren(t), "&");
    AtChar(s, j, '&');
    var d := AtomOf(s, i, t);
    c := Back(d);
    SymbolToken(s, j);
    PipeStop(s, i, d, j);
    BacksOne(s, j, d);
    LineStop(s, i, d, j, c, end);
  }

  /**
   Parsing a printed command gives the command back, for every command tree whose commands have at most
   MAXARGS - 1 words that the shell's syntax can spell.
   */
  lemma RoundTrip(t: Tree)
    requires Good(t)
    ensures Parse(Print(t)).Ok? && Reads(Print(t), Parse(Print(t)).value) == t
  {
    var s := Print(t);
    assert s[0..|s|] == s;
    var c := LineOf(s, 0, t);
    SkipNone(s, |s|);
  }

  /** So printing is injective: two different commands are never written alike. */
  lemma PrintInjective(t: Tree, u: Tree)
    requires Good(t) && Good(u) && Print(t) == Print(u)
    ensures t == u
  {
    RoundTrip(t);
    RoundTrip(u);
  }
}
