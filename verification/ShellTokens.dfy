/**
 What a token is, and what becomes of the tokens of a line: a command that the parser accepts holds every token
 of its line, parentheses aside, exactly once.
 */
module ShellTokens {
  import opened Shell

  /** The meaning of one call of gettoken. */
  lemma TokenMeaning(s: string, i: nat)
    requires i <= |s|
    ensures var l := Gettoken(s, i);
            && i <= l.q <= l.eq <= l.next <= |s|
            && (forall k :: i <= k < l.q || l.eq <= k < l.next ==> IsSpace(s[k]))
            && (l.q < |s| ==> !IsSpace(s[l.q])) && (l.next < |s| ==> !IsSpace(s[l.next]))
            && (l.tok == End <==> l.q == |s|)
            && (l.tok == Append <==> l.q + 1 < |s| && s[l.q] == '>' && s[l.q + 1] == '>')
            && (l.tok == Append ==> l.eq == l.q + 2)
            && (l.tok.Symbol? ==> l.q < |s| && IsSymbol(s[l.q]) && l.tok.c == s[l.q] && l.eq == l.q + 1)
            && (l.tok == Word <==> l.q < |s| && InWord(s[l.q]))
            && (l.tok == Word ==> IsToken(s, Span(l.q, l.eq)))
  {
  }

  /** The same in terms of the characters themselves: what is skipped, what a word is made of and what ends it. */
  lemma TokenCharacters(s: string, i: nat)
    requires i <= |s|
    ensures var l := Gettoken(s, i);
            && i <= l.q <= l.eq <= l.next <= |s|
            && (forall k :: i <= k < l.q || l.eq <= k < l.next ==> s[k] in BLANKS)
            && (l.q < |s| ==> s[l.q] !in BLANKS) && (l.next < |s| ==> s[l.next] !in BLANKS)
            && (l.tok == Word <==> l.q < |s| && s[l.q] !in MARKS)
            && (l.tok == Word ==> (forall k :: l.q <= k < l.eq ==> s[k] !in BLANKS && s[k] !in MARKS))
            && (l.tok == Word && l.eq < |s| ==> s[l.eq] in BLANKS || s[l.eq] in MARKS)
  {
    TokenMeaning(s, i);
    forall k | 0 <= k < |s|
      ensures (IsSpace(s[k]) <==> s[k] in BLANKS) && (IsSymbol(s[k]) <==> s[k] in MARKS)
    {
      CharacterClasses(s[k]);
    }
  }

  const BLANKS := " \t\r\n\U{0B}"
  const MARKS := "<|>&;()"

  lemma CharacterClasses(c: char)
    ensures IsSpace(c) <==> c in BLANKS
    ensures IsSymbol(c) <==> c in MARKS
  {
    assert BLANKS[0] == ' ' && BLANKS[1] == '\t' && BLANKS[2] == '\r' && BLANKS[3] == '\n' && BLANKS[4] == '\U{0B}';
    assert MARKS[0] == '<' && MARKS[1] == '|' && MARKS[2] == '>' && MARKS[3] == '&' && MARKS[4] == ';';
    assert MARKS[5] == '(' && MARKS[6] == ')';
  }

  /** A token that is part of a command. ">>" counts as '>'. */
  datatype Item = Spelled(w: Span) | Bar | Ampersand | Semicolon | In | Out | Paren

  function ItemOf(l: Lexeme): Item
    requires l.tok != End
  {
    match l.tok
    case Word => Spelled(Span(l.q, l.eq))
    case Append => Out
    case Symbol(c) =>
      if c == '|' then Bar else if c == '&' then Ampersand else if c == ';' then Semicolon
      else if c == '<' then In else if c == '>' then Out else Paren
  }

  function One(x: Item, y: Item): nat {
    if x == y then 1 else 0
  }

  /** How often x is among the tokens of the line from i on. */
  function InLine(s: string, i: nat, x: Item): nat
    requires i <= |s|
    decreases |s| - i
  {
    var l := Gettoken(s, i);
    if l.tok == End then 0 else One(x, ItemOf(l)) + InLine(s, l.next, x)
  }

  function InWords(argv: seq<Span>, x: Item): nat {
    if argv == [] then 0 else InWords(argv[..|argv| - 1], x) + One(x, Spelled(argv[|argv| - 1]))
  }

  function InRedirection(r: Redirection, x: Item): nat {
    One(x, Spelled(r.file)) + One(x, if r.mode == RdOnly then In else Out)
  }

  function InRedirections(rs: seq<Redirection>, x: Item): nat {
    if rs == [] then 0 else InRedirections(rs[..|rs| - 1], x) + InRedirection(rs[|rs| - 1], x)
  }

  /** How often x is part of a command. */
  function InCmd(c: Cmd, x: Item): nat {
    match c
    case Exec(argv) => InWords(argv, x)
    case Redir(d, r) => InCmd(d, x) + InRedirection(r, x)
    case Pipe(l, r) => InCmd(l, x) + One(x, Bar) + InCmd(r, x)
    case List(l, r) => InCmd(l, x) + One(x, Semicolon) + InCmd(r, x)
    case Back(d) => InCmd(d, x) + One(x, Ampersand)
  }

  // ---------------------------------------------------------------- single steps

  lemma {:induction false} WrapCounts(c: Cmd, rs: seq<Redirection>, x: Item)
    ensures InCmd(Wrap(c, rs), x) == InCmd(c, x) + InRedirections(rs, x)
  {
    if rs != [] {
      WrapCounts(c, rs[..|rs| - 1], x);
    }
  }

  /** Blanks before a token do not matter. */
  lemma SkipCounts(s: string, i: nat, x: Item)
    requires i <= |s|
    ensures i <= SkipSpace(s, i) <= |s| && InLine(s, SkipSpace(s, i), x) == InLine(s, i, x)
    ensures Gettoken(s, SkipSpace(s, i)) == Gettoken(s, i)
  {
    assert SkipSpace(s, SkipSpace(s, i)) == SkipSpace(s, i);
  }

  lemma TokenCounts(s: string, i: nat, x: Item)
    requires i <= |s|
    ensures var l := Gettoken(s, i);
            && i <= l.next <= |s| && (l.tok != End ==> i < l.next)
            && InLine(s, i, x) == (if l.tok == End then 0 else One(x, ItemOf(l)) + InLine(s, l.next, x))
            && (l.tok == End ==> InLine(s, l.next, x) == 0)
            && (l.tok == Word ==> IsToken(s, Span(l.q, l.eq)))
  {
    hide TokenAt, SkipSpace, IsToken;
    EndAtEnd(s, i);
    EndAtEnd(s, |s|);
  }

  lemma EndAtEnd(s: string, i: nat)
    requires i <= |s|
    ensures Gettoken(s, i).tok == End ==> Gettoken(s, i).next == |s|
    ensures i == |s| ==> Gettoken(s, i).tok == End
  {
    hide IsToken;
  }

  /** A peeked symbol is the next token. */
  lemma PeekCounts(s: string, i: nat, toks: string)
    requires i <= |s| && PeekAt(s, i, toks) && forall c :: c in toks ==> IsSymbol(c)
    ensures var l := Gettoken(s, i);
            (l.tok == Append && '>' in toks) || (l.tok.Symbol? && l.tok.c in toks)
  {
  }

  // ---------------------------------------------------------------- the parsers

  lemma OneMoreFile(s: string, rs: seq<Redirection>, r: Redirection)
    requires FilesOk(s, rs) && IsToken(s, r.file)
    ensures FilesOk(s, rs + [r])
  {
  }

  lemma {:induction false} RedirsKeep(s: string, i: nat, rs: seq<Redirection>, x: Item)
    requires i <= |s| && FilesOk(s, rs) && Redirs(s, i, rs).Ok?
    ensures var r := Redirs(s, i, rs);
            && i <= r.pos <= |s| && FilesOk(s, r.value)
            && InRedirections(r.value, x) + InLine(s, r.pos, x) == InRedirections(rs, x) + InLine(s, i, x)
    decreases |s| - i
  {
    hide Gettoken, PeekAt, SkipSpace, InLine, IsToken, FilesOk;
    SkipCounts(s, i, x);
    if PeekAt(s, i, "<>") {
      PeekCounts(s, i, "<>");
      TokenCounts(s, i, x);
      var t := Gettoken(s, i);
      TokenCounts(s, t.next, x);
      var f := Gettoken(s, t.next);
      var r := RedirectionFor(t.tok, Span(f.q, f.eq));
      assert (rs + [r])[..|rs|] == rs;
      OneMoreFile(s, rs, r);
      RedirsKeep(s, f.next, rs + [r], x);
    }
  }

  lemma {:induction false} ArgsKeep(s: string, i: nat, argv: seq<Span>, rs: seq<Redirection>, x: Item)
    requires i <= |s| && FilesOk(s, rs) && WordsOk(s, argv) && |argv| < MAXARGS && Args(s, i, argv, rs).Ok?
    ensures var r := Args(s, i, argv, rs);
            && i <= r.pos <= |s|
            && InCmd(r.value, x) + InLine(s, r.pos, x) == InWords(argv, x) + InRedirections(rs, x) + InLine(s, i, x)
    decreases |s| - i
  {
    hide Gettoken, PeekAt, SkipSpace, InLine, IsToken, Wrap, Redirs, FilesOk;
    SkipCounts(s, i, x);
    WrapCounts(Exec(argv), rs, x);
    TokenCounts(s, i, x);
    var t := Gettoken(s, i);
    if !PeekAt(s, i, "|)&;") && t.tok != End {
      var r := Redirs(s, t.next, rs);
      RedirsKeep(s, t.next, rs, x);
      var words := argv + [Span(t.q, t.eq)];
      assert words[..|argv|] == argv;
      ArgsKeep(s, r.pos, words, r.value, x);
    }
  }

  lemma {:induction false} ExecKeep(s: string, i: nat, x: Item)
    requires i <= |s| && ParseExec(s, i).Ok? && x != Paren
    ensures var r := ParseExec(s, i);
            i <= r.pos <= |s| && InCmd(r.value, x) + InLine(s, r.pos, x) == InLine(s, i, x)
    decreases |s| - i, 1
  {
    hide Gettoken, SkipSpace, InLine, Redirs, Args, ParseBlock;
    SkipCounts(s, i, x);
    var p := SkipSpace(s, i);
    if PeekAt(s, i, "(") {
      BlockKeep(s, p, x);
    } else {
      RedirsKeep(s, p, [], x);
      ArgsKeep(s, Redirs(s, p, []).pos, [], Redirs(s, p, []).value, x);
    }
  }

  lemma {:induction false} BlockKeep(s: string, p: nat, x: Item)
    requires p < |s| && s[p] == '(' && ParseBlock(s, p).Ok? && x != Paren
    ensures var r := ParseBlock(s, p);
            p <= r.pos <= |s| && InCmd(r.value, x) + InLine(s, r.pos, x) == InLine(s, p, x)
    decreases |s| - p, 0
  {
    hide Gettoken, SkipSpace, PeekAt, InLine, Redirs, ParseLine, Wrap;
    OpenToken(s, p);
    TokenCounts(s, p, x);
    var t := Gettoken(s, p);
    var c := ParseLine(s, t.next);
    LineKeep(s, t.next, x);
    PeekCounts(s, c.pos, ")");
    TokenCounts(s, c.pos, x);
    var u := Gettoken(s, c.pos);
    RedirsKeep(s, u.next, [], x);
    WrapCounts(c.value, Redirs(s, u.next, []).value, x);
  }

  lemma OpenToken(s: string, p: nat)
    requires p < |s| && s[p] == '('
    ensures Gettoken(s, p).tok == Symbol('(')
  {
  }

  lemma {:induction false} PipeKeep(s: string, i: nat, x: Item)
    requires i <= |s| && ParsePipe(s, i).Ok? && x != Paren
    ensures var r := ParsePipe(s, i);
            i <= r.pos <= |s| && InCmd(r.value, x) + InLine(s, r.pos, x) == InLine(s, i, x)
    decreases |s| - i, 2
  {
    hide Gettoken, SkipSpace, PeekAt, InLine, ParseExec;
    ExecKeep(s, i, x);
    var c := ParseExec(s, i);
    SkipCounts(s, c.pos, x);
    if PeekAt(s, c.pos, "|") {
      PeekCounts(s, c.pos, "|");
      TokenCounts(s, c.pos, x);
      PipeKeep(s, Gettoken(s, c.pos).next, x);
    }
  }

  lemma {:induction false} BacksKeep(s: string, i: nat, c: Cmd, x: Item)
    requires i <= |s| && SpansOk(s, c)
    ensures var r := Backs(s, i, c);
            i <= r.1 <= |s| && InCmd(r.0, x) + InLine(s, r.1, x) == InCmd(c, x) + InLine(s, i, x)
    decreases |s| - i
  {
    hide Gettoken, SkipSpace, PeekAt, InLine;
    SkipCounts(s, i, x);
    if PeekAt(s, i, "&") {
      PeekCounts(s, i, "&");
      TokenCounts(s, i, x);
      BacksKeep(s, Gettoken(s, i).next, Back(c), x);
    }
  }

  lemma {:induction false} LineKeep(s: string, i: nat, x: Item)
    requires i <= |s| && ParseLine(s, i).Ok? && x != Paren
    ensures var r := ParseLine(s, i);
            i <= r.pos <= |s| && InCmd(r.value, x) + InLine(s, r.pos, x) == InLine(s, i, x)
    decreases |s| - i, 3
  {
    hide Gettoken, SkipSpace, PeekAt, InLine, ParsePipe, Backs, SpansOk;
    PipeSpans(s, i);
    PipeKeep(s, i, x);
    var c := ParsePipe(s, i);
    BacksKeep(s, c.pos, c.value, x);
    var p := Backs(s, c.pos, c.value).1;
    SkipCounts(s, p, x);
    if PeekAt(s, p, ";") {
      PeekCounts(s, p, ";");
      TokenCounts(s, p, x);
      LineKeep(s, Gettoken(s, p).next, x);
    }
  }

  lemma PipeSpans(s: string, i: nat)
    requires i <= |s|
    ensures ParsePipe(s, i).Ok? ==> SpansOk(s, ParsePipe(s, i).value)
  {
  }

  /**
   Whatever the line: every word, redirection, pipe, background mark and semicolon of an accepted line is part of
   its command exactly as often as it is in the line. None is lost, invented or used twice.
   */
  lemma TokensConserved(s: string, x: Item)
    requires Parse(s).Ok? && x != Paren
    ensures InCmd(Parse(s).value, x) == InLine(s, 0, x)
  {
    hide Gettoken, SkipSpace, InLine, ParseLine;
    LineKeep(s, 0, x);
    SkipCounts(s, ParseLine(s, 0).pos, x);
    AtEnd(s, x);
  }

  lemma AtEnd(s: string, x: Item)
    ensures InLine(s, |s|, x) == 0
  {
  }
}
