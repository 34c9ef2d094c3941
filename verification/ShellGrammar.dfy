/**
 The grammar of command lines, stated on the list of tokens of a line without mention of a parser, and the theorem
 that the parser accepts a line with a command exactly when the grammar gives it that command.
 */
module ShellGrammar {
  import opened Shell

  /** The tokens of the line from `i` on. */
  function Toks(s: string, i: nat): (ts: seq<Lexeme>)
    requires i <= |s|
    decreases |s| - i
  {
    var l := Gettoken(s, i);
    if l.tok == End then [] else [l] + Toks(s, l.next)
  }

  predicate IsRedir(l: Lexeme) {
    l.tok == Symbol('<') || l.tok == Symbol('>') || l.tok == Append
  }

  // ---------------------------------------------------------------- simple commands

  /** Words and redirections in any order, a file after every redirection. */
  predicate SimpleOk(ts: seq<Lexeme>) {
    ts == []
    || (ts[0].tok == Word && SimpleOk(ts[1..]))
    || (IsRedir(ts[0]) && |ts| > 1 && ts[1].tok == Word && SimpleOk(ts[2..]))
  }

  function WordsOf(ts: seq<Lexeme>): seq<Span>
    requires SimpleOk(ts)
  {
    if ts == [] then []
    else if ts[0].tok == Word then [Span(ts[0].q, ts[0].eq)] + WordsOf(ts[1..])
    else WordsOf(ts[2..])
  }

  function RedirsOf(ts: seq<Lexeme>): seq<Redirection>
    requires SimpleOk(ts)
  {
    if ts == [] then []
    else if ts[0].tok == Word then RedirsOf(ts[1..])
    else if ts[0].tok == Symbol('<') then [Redirection(Span(ts[1].q, ts[1].eq), RdOnly, 0)] + RedirsOf(ts[2..])
    else [Redirection(Span(ts[1].q, ts[1].eq), WrOnlyCreate, 1)] + RedirsOf(ts[2..])
  }

  /** simple: fewer than MAXARGS words, wrapped in the redirections. */
  predicate SimpleG(ts: seq<Lexeme>, c: Cmd) {
    SimpleOk(ts) && |WordsOf(ts)| < 10 && c == Wrap(Exec(WordsOf(ts)), RedirsOf(ts))
  }

  predicate RedirsG(ts: seq<Lexeme>) {
    SimpleOk(ts) && WordsOf(ts) == []
  }

  // ---------------------------------------------------------------- the rest of the grammar

  /** The command inside `n` redirections. */
  function Inner(c: Cmd, n: nat): Cmd {
    if n == 0 || !c.Redir? then c else Inner(c.cmd, n - 1)
  }

  function BackN(c: Cmd, n: nat): Cmd {
    if n == 0 then c else Back(BackN(c, n - 1))
  }

  /** The command under `n` background marks. */
  function Front(c: Cmd, n: nat): Cmd {
    if n == 0 || !c.Back? then c else Front(c.cmd, n - 1)
  }

  predicate AllBack(ts: seq<Lexeme>) {
    forall k :: 0 <= k < |ts| ==> ts[k].tok == Symbol('&')
  }

  /** block: '(' line ')' with redirections behind; the closing parenthesis is token `k`. */
  ghost predicate BlockAt(ts: seq<Lexeme>, c: Cmd, k: nat)
    decreases |ts|, 0
  {
    && 0 < k < |ts| && ts[0].tok == Symbol('(') && ts[k].tok == Symbol(')') && RedirsG(ts[k + 1..])
    && var rs := RedirsOf(ts[k + 1..]);
       c == Wrap(Inner(c, |rs|), rs) && LineG(ts[1..k], Inner(c, |rs|))
  }

  ghost predicate ExecG(ts: seq<Lexeme>, c: Cmd)
    decreases |ts|, 1
  {
    SimpleG(ts, c) || exists k: nat :: BlockAt(ts, c, k)
  }

  /** pipe: exec '|' pipe; the bar is token `k`. */
  ghost predicate BarAt(ts: seq<Lexeme>, c: Cmd, k: nat)
    decreases |ts|, 2
  {
    k < |ts| && ts[k].tok == Symbol('|') && c.Pipe? && ExecG(ts[..k], c.left) && PipeG(ts[k + 1..], c.right)
  }

  ghost predicate PipeG(ts: seq<Lexeme>, c: Cmd)
    decreases |ts|, 3
  {
    ExecG(ts, c) || exists k: nat :: BarAt(ts, c, k)
  }

  /** A pipe of `k` tokens and background marks behind it. */
  ghost predicate BacksAt(ts: seq<Lexeme>, c: Cmd, k: nat)
    decreases |ts|, 4
  {
    && k <= |ts| && AllBack(ts[k..])
    && c == BackN(Front(c, |ts| - k), |ts| - k) && PipeG(ts[..k], Front(c, |ts| - k))
  }

  ghost predicate BackedG(ts: seq<Lexeme>, c: Cmd)
    decreases |ts|, 5
  {
    exists k: nat :: BacksAt(ts, c, k)
  }

  /** line: backed ';' line; the semicolon is token `k`. */
  ghost predicate SemiAt(ts: seq<Lexeme>, c: Cmd, k: nat)
    decreases |ts|, 6
  {
    k < |ts| && ts[k].tok == Symbol(';') && c.List? && BackedG(ts[..k], c.left) && LineG(ts[k + 1..], c.right)
  }

  ghost predicate LineG(ts: seq<Lexeme>, c: Cmd)
    decreases |ts|, 7
  {
    BackedG(ts, c) || exists k: nat :: SemiAt(ts, c, k)
  }

  // ---------------------------------------------------------------- tokens and positions

  lemma SkipToks(s: string, i: nat)
    requires i <= |s|
    ensures i <= SkipSpace(s, i) <= |s| && Toks(s, SkipSpace(s, i)) == Toks(s, i)
    ensures Gettoken(s, SkipSpace(s, i)) == Gettoken(s, i) && SkipSpace(s, SkipSpace(s, i)) == SkipSpace(s, i)
  {
    assert SkipSpace(s, SkipSpace(s, i)) == SkipSpace(s, i);
  }

  /** The next token is the first of the list; the list is empty exactly at the end. */
  lemma NextTok(s: string, i: nat)
    requires i <= |s|
    ensures var l := Gettoken(s, i);
            && i <= l.next <= |s| && (l.tok != End ==> i < l.next)
            && (l.tok == End <==> Toks(s, i) == []) && (l.tok == End ==> Toks(s, l.next) == [])
            && (l.tok != End ==> Toks(s, i) == [l] + Toks(s, l.next) && Toks(s, i)[0] == l && Toks(s, i)[1..] == Toks(s, l.next))
  {
    if Gettoken(s, i).tok == End {
      assert SkipSpace(s, i) == |s|;
    }
  }

  lemma PeekOne(s: string, i: nat, c: char)
    requires i <= |s| && IsSymbol(c) && c != '>'
    ensures PeekAt(s, i, [c]) <==> Toks(s, i) != [] && Toks(s, i)[0].tok == Symbol(c)
  {
    NextTok(s, i);
  }

  lemma PeekRedir(s: string, i: nat)
    requires i <= |s|
    ensures PeekAt(s, i, "<>") <==> Toks(s, i) != [] && IsRedir(Toks(s, i)[0])
  {
    NextTok(s, i);
  }

  predicate Stops(ts: seq<Lexeme>) {
    ts == [] || ts[0].tok in {Symbol('|'), Symbol(')'), Symbol('&'), Symbol(';')}
  }

  lemma PeekStop(s: string, i: nat)
    requires i <= |s|
    ensures PeekAt(s, i, "|)&;") <==> Toks(s, i) != [] && Stops(Toks(s, i))
  {
    NextTok(s, i);
  }

  // ---------------------------------------------------------------- small facts

  lemma {:induction false} InnerWrap(c: Cmd, rs: seq<Redirection>)
    ensures Inner(Wrap(c, rs), |rs|) == c
  {
    if rs != [] {
      InnerWrap(c, rs[..|rs| - 1]);
    }
  }

  /** The last redirection of a line is the outermost one, which the shell opens first. */
  lemma {:induction false} OutermostIsLast(c: Cmd, rs: seq<Redirection>, n: nat)
    requires n < |rs|
    ensures Inner(Wrap(c, rs), n) == Redir(Inner(Wrap(c, rs), n + 1), rs[|rs| - 1 - n])
  {
    if n > 0 {
      OutermostIsLast(c, rs[..|rs| - 1], n - 1);
    }
  }

  /** A simple command: its words, inside its redirections, the first one innermost. */
  lemma SimpleMeaning(ts: seq<Lexeme>, c: Cmd)
    requires SimpleG(ts, c)
    ensures var rs := RedirsOf(ts);
            && Inner(c, |rs|) == Exec(WordsOf(ts))
            && forall n :: 0 <= n < |rs| ==> Inner(c, n).Redir? && Inner(c, n).r == rs[|rs| - 1 - n]
  {
    var rs := RedirsOf(ts);
    InnerWrap(Exec(WordsOf(ts)), rs);
    forall n | 0 <= n < |rs|
      ensures Inner(c, n).Redir? && Inner(c, n).r == rs[|rs| - 1 - n]
    {
      OutermostIsLast(Exec(WordsOf(ts)), rs, n);
    }
  }

  lemma {:induction false} FrontBackN(c: Cmd, n: nat)
    ensures Front(BackN(c, n), n) == c
  {
    if n > 0 {
      FrontBackN(c, n - 1);
    }
  }

  lemma {:induction false} BackInside(c: Cmd, n: nat)
    ensures BackN(Back(c), n) == BackN(c, n + 1)
  {
    if n > 0 {
      BackInside(c, n - 1);
    }
  }

  lemma {:induction false} SimpleConcat(a: seq<Lexeme>, b: seq<Lexeme>)
    requires SimpleOk(a) && SimpleOk(b)
    ensures SimpleOk(a + b) && WordsOf(a + b) == WordsOf(a) + WordsOf(b) && RedirsOf(a + b) == RedirsOf(a) + RedirsOf(b)
    decreases |a|
  {
    if a == [] {
      assert a + b == b;
    } else if a[0].tok == Word {
      assert (a + b)[1..] == a[1..] + b;
      SimpleConcat(a[1..], b);
    } else {
      assert (a + b)[2..] == a[2..] + b;
      SimpleConcat(a[2..], b);
    }
  }

  /** A simple command is its leading redirections and what begins with the first word. */
  lemma SplitLead(ts: seq<Lexeme>) returns (k: nat)
    requires SimpleOk(ts)
    ensures k <= |ts| && RedirsG(ts[..k]) && SimpleOk(ts[k..]) && (k < |ts| ==> ts[k].tok == Word)
    ensures WordsOf(ts) == WordsOf(ts[k..]) && RedirsOf(ts) == RedirsOf(ts[..k]) + RedirsOf(ts[k..])
  {
    k := LeadEnd(ts);
    SimpleConcat(ts[..k], ts[k..]);
    assert ts[..k] + ts[k..] == ts;
    hide SimpleOk, WordsOf, RedirsOf;
    assert [] + WordsOf(ts[k..]) == WordsOf(ts[k..]);
  }

  lemma {:induction false} LeadEnd(ts: seq<Lexeme>) returns (k: nat)
    requires SimpleOk(ts)
    ensures k <= |ts| && RedirsG(ts[..k]) && SimpleOk(ts[k..]) && (k < |ts| ==> ts[k].tok == Word)
    decreases |ts|
  {
    if ts == [] || ts[0].tok == Word {
      k := 0;
      assert ts[0..] == ts && ts[..0] == [];
    } else {
      var j := LeadEnd(ts[2..]);
      k := j + 2;
      assert ts[..k] == ts[..2] + ts[2..][..j] && ts[k..] == ts[2..][j..];
      PairThen(ts[..2], ts[2..][..j]);
    }
  }

  /** One more redirection in front. */
  lemma PairThen(a: seq<Lexeme>, b: seq<Lexeme>)
    requires |a| == 2 && IsRedir(a[0]) && a[1].tok == Word && RedirsG(b)
    ensures RedirsG(a + b) && RedirsOf(a + b) == [RedirectionFor(a[0].tok, Span(a[1].q, a[1].eq))] + RedirsOf(b)
  {
    assert (a + b)[2..] == b;
  }

  lemma HeadRedir(ts: seq<Lexeme>)
    requires RedirsG(ts) && ts != []
    ensures |ts| > 1 && IsRedir(ts[0]) && ts[1].tok == Word && RedirsG(ts[2..])
    ensures RedirsOf(ts) == [RedirectionFor(ts[0].tok, Span(ts[1].q, ts[1].eq))] + RedirsOf(ts[2..])
  {
  }

  // ---------------------------------------------------------------- what the parser accepts is in the grammar

  lemma {:induction false} RedirsSound(s: string, i: nat, rs: seq<Redirection>) returns (ts: seq<Lexeme>)
    requires i <= |s| && FilesOk(s, rs) && Redirs(s, i, rs).Ok?
    ensures var r := Redirs(s, i, rs);
            && r.pos <= |s| && Toks(s, i) == ts + Toks(s, r.pos) && RedirsG(ts) && r.value == rs + RedirsOf(ts)
            && (Toks(s, r.pos) == [] || !IsRedir(Toks(s, r.pos)[0]))
    decreases |s| - i
  {
    hide Gettoken, PeekAt, SkipSpace, IsToken, FilesOk, Toks;
    SkipToks(s, i);
    PeekRedir(s, i);
    ts := [];
    if PeekAt(s, i, "<>") {
      NextTok(s, i);
      var t := Gettoken(s, i);
      NextTok(s, t.next);
      var f := Gettoken(s, t.next);
      var r := RedirectionFor(t.tok, Span(f.q, f.eq));
      FileOk(s, t.next, rs, r);
      var rest := RedirsSound(s, f.next, rs + [r]);
      ts := [t, f] + rest;
      assert ts[2..] == rest;
    }
  }

  lemma FileOk(s: string, i: nat, rs: seq<Redirection>, r: Redirection)
    requires i <= |s| && FilesOk(s, rs) && Gettoken(s, i).tok == Word && r.file == Span(Gettoken(s, i).q, Gettoken(s, i).eq)
    ensures FilesOk(s, rs + [r])
  {
  }

  lemma {:induction false} ArgsSound(s: string, i: nat, argv: seq<Span>, rs: seq<Redirection>) returns (ts: seq<Lexeme>)
    requires i <= |s| && FilesOk(s, rs) && WordsOk(s, argv) && |argv| < MAXARGS && Args(s, i, argv, rs).Ok?
    ensures var r := Args(s, i, argv, rs);
            && r.pos <= |s| && Toks(s, i) == ts + Toks(s, r.pos) && SimpleOk(ts) && Stops(Toks(s, r.pos))
            && |argv + WordsOf(ts)| < MAXARGS && r.value == Wrap(Exec(argv + WordsOf(ts)), rs + RedirsOf(ts))
    decreases |s| - i
  {
    hide Gettoken, PeekAt, SkipSpace, IsToken, FilesOk, Toks, Wrap, Redirs, WordsOf, RedirsOf, SimpleOk, WordsOk, Stops;
    SkipToks(s, i);
    PeekStop(s, i);
    NoSimple(s, i);
    NextTok(s, i);
    var t := Gettoken(s, i);
    ts := [];
    assert argv + [] == argv && rs + [] == rs;
    if !PeekAt(s, i, "|)&;") && t.tok != End {
      var a := RedirsSound(s, t.next, rs);
      var r := Redirs(s, t.next, rs);
      WordOk(s, i, argv);
      var b := ArgsSound(s, r.pos, argv + [Span(t.q, t.eq)], r.value);
      WordThen(t, a, b);
      ts := [t] + (a + b);
      assert argv + WordsOf(ts) == argv + [Span(t.q, t.eq)] + WordsOf(b);
      assert rs + RedirsOf(ts) == r.value + RedirsOf(b);
    }
  }

  lemma WordThen(t: Lexeme, a: seq<Lexeme>, b: seq<Lexeme>)
    requires t.tok == Word && RedirsG(a) && SimpleOk(b)
    ensures var ts := [t] + (a + b);
            SimpleOk(ts) && WordsOf(ts) == [Span(t.q, t.eq)] + WordsOf(b) && RedirsOf(ts) == RedirsOf(a) + RedirsOf(b)
  {
    SimpleConcat(a, b);
    assert ([t] + (a + b))[1..] == a + b;
  }

  lemma NoSimple(s: string, i: nat)
    requires i <= |s|
    ensures SimpleOk([]) && WordsOf([]) == [] && RedirsOf([]) == [] && (Toks(s, i) == [] ==> Stops(Toks(s, i)))
  {
  }

  lemma WordOk(s: string, i: nat, argv: seq<Span>)
    requires i <= |s| && WordsOk(s, argv) && Gettoken(s, i).tok == Word
    ensures WordsOk(s, argv + [Span(Gettoken(s, i).q, Gettoken(s, i).eq)])
  {
  }

  lemma {:induction false} ExecSound(s: string, i: nat) returns (ts: seq<Lexeme>)
    requires i <= |s| && ParseExec(s, i).Ok?
    ensures var r := ParseExec(s, i);
            r.pos <= |s| && Toks(s, i) == ts + Toks(s, r.pos) && ExecG(ts, r.value)
    decreases |s| - i, 1
  {
    hide Gettoken, SkipSpace, PeekAt, Toks, Redirs, Args, ParseBlock, LineG, BlockAt, SimpleOk, WordsOf, RedirsOf, Wrap;
    SkipToks(s, i);
    var p := SkipSpace(s, i);
    if PeekAt(s, i, "(") {
      OpenAt(s, i);
      var k;
      ts, k := BlockSound(s, p);
    } else {
      var a := RedirsSound(s, p, []);
      var r := Redirs(s, p, []);
      var b := ArgsSound(s, r.pos, [], r.value);
      SimpleConcat(a, b);
      ts := a + b;
      assert [] + WordsOf(b) == WordsOf(ts) && r.value + RedirsOf(b) == RedirsOf(ts);
    }
  }

  lemma {:induction false} BlockSound(s: string, p: nat) returns (ts: seq<Lexeme>, k: nat)
    requires p < |s| && s[p] == '(' && ParseBlock(s, p).Ok?
    ensures var r := ParseBlock(s, p);
            r.pos <= |s| && Toks(s, p) == ts + Toks(s, r.pos) && BlockAt(ts, r.value, k)
    decreases |s| - p, 0
  {
    hide Gettoken, SkipSpace, PeekAt, Toks, Redirs, ParseLine, Wrap, LineG;
    OpenTok(s, p);
    NextTok(s, p);
    var t := Gettoken(s, p);
    var c := ParseLine(s, t.next);
    var a := LineSound(s, t.next);
    PeekOne(s, c.pos, ')');
    NextTok(s, c.pos);
    var u := Gettoken(s, c.pos);
    var b := RedirsSound(s, u.next, []);
    var rs := Redirs(s, u.next, []).value;
    assert [] + RedirsOf(b) == rs;
    InnerWrap(c.value, rs);
    k := |a| + 1;
    ts := [t] + a + [u] + b;
    assert ts[1..k] == a && ts[k + 1..] == b && ts[k] == u;
    assert RedirsG(ts[k + 1..]) && RedirsOf(ts[k + 1..]) == rs;
    assert ParseBlock(s, p).value == Wrap(c.value, rs);
  }

  lemma OpenTok(s: string, p: nat)
    requires p < |s| && s[p] == '('
    ensures Gettoken(s, p).tok == Symbol('(')
  {
  }

  lemma {:induction false} PipeSound(s: string, i: nat) returns (ts: seq<Lexeme>)
    requires i <= |s| && ParsePipe(s, i).Ok?
    ensures var r := ParsePipe(s, i);
            r.pos <= |s| && Toks(s, i) == ts + Toks(s, r.pos) && PipeG(ts, r.value)
    decreases |s| - i, 2
  {
    hide Gettoken, SkipSpace, PeekAt, Toks, ParseExec, ExecG;
    ts := ExecSound(s, i);
    var c := ParseExec(s, i);
    SkipToks(s, c.pos);
    if PeekAt(s, c.pos, "|") {
      PeekOne(s, c.pos, '|');
      NextTok(s, c.pos);
      var t := Gettoken(s, c.pos);
      var b := PipeSound(s, t.next);
      var k := |ts|;
      var all := ts + [t] + b;
      assert all[..k] == ts && all[k + 1..] == b;
      assert BarAt(all, ParsePipe(s, i).value, k);
      ts := all;
    }
  }

  lemma {:induction false} BacksSound(s: string, i: nat, c: Cmd) returns (ts: seq<Lexeme>)
    requires i <= |s| && SpansOk(s, c)
    ensures var r := Backs(s, i, c);
            && r.1 <= |s| && Toks(s, i) == ts + Toks(s, r.1) && AllBack(ts) && r.0 == BackN(c, |ts|)
    decreases |s| - i
  {
    hide Gettoken, SkipSpace, PeekAt, Toks;
    SkipToks(s, i);
    ts := [];
    if PeekAt(s, i, "&") {
      PeekOne(s, i, '&');
      NextTok(s, i);
      var t := Gettoken(s, i);
      var rest := BacksSound(s, t.next, Back(c));
      BackInside(c, |rest|);
      ts := [t] + rest;
    }
  }

  lemma PipeSpans(s: string, i: nat)
    requires i <= |s|
    ensures ParsePipe(s, i).Ok? ==> ParsePipe(s, i).pos <= |s| && SpansOk(s, ParsePipe(s, i).value)
  {
  }

  lemma {:induction false} LineSound(s: string, i: nat) returns (ts: seq<Lexeme>)
    requires i <= |s| && ParseLine(s, i).Ok?
    ensures var r := ParseLine(s, i);
            r.pos <= |s| && Toks(s, i) == ts + Toks(s, r.pos) && LineG(ts, r.value)
    decreases |s| - i, 3
  {
    hide Gettoken, SkipSpace, PeekAt, Toks, ParsePipe, Backs, SpansOk, PipeG;
    PipeSpans(s, i);
    var c := ParsePipe(s, i);
    var a := PipeSound(s, i);
    var amps := BacksSound(s, c.pos, c.value);
    var b := Backs(s, c.pos, c.value);
    ts := a + amps;
    FrontBackN(c.value, |amps|);
    assert ts[..|a|] == a && ts[|a|..] == amps;
    assert BacksAt(ts, b.0, |a|);
    SkipToks(s, b.1);
    if PeekAt(s, b.1, ";") {
      PeekOne(s, b.1, ';');
      NextTok(s, b.1);
      var t := Gettoken(s, b.1);
      var rest := LineSound(s, t.next);
      var all := ts + [t] + rest;
      assert all[..|ts|] == ts && all[|ts| + 1..] == rest;
      assert SemiAt(all, ParseLine(s, i).value, |ts|);
      ts := all;
    }
  }

  // ---------------------------------------------------------------- what is in the grammar is accepted

  lemma HeadTok(s: string, i: nat, ts: seq<Lexeme>, rest: seq<Lexeme>)
    requires i <= |s| && Toks(s, i) == ts + rest && ts != []
    ensures var l := Gettoken(s, i);
            l == ts[0] && l.tok != End && i < l.next <= |s| && Toks(s, l.next) == ts[1..] + rest
  {
    hide Gettoken, Toks;
    NextTok(s, i);
    assert (ts + rest)[1..] == ts[1..] + rest;
  }

  predicate NoRedirNext(rest: seq<Lexeme>) {
    rest == [] || !IsRedir(rest[0])
  }

  lemma {:induction false} RedirsComplete(s: string, i: nat, ts: seq<Lexeme>, rest: seq<Lexeme>, rs: seq<Redirection>)
    requires i <= |s| && FilesOk(s, rs) && Toks(s, i) == ts + rest && RedirsG(ts) && NoRedirNext(rest)
    ensures var r := Redirs(s, i, rs);
            r.Ok? && r.value == rs + RedirsOf(ts) && r.pos <= |s| && Toks(s, r.pos) == rest
    decreases |ts|
  {
    hide Gettoken, PeekAt, SkipSpace, IsToken, FilesOk, Toks, SimpleOk, WordsOf, RedirsOf;
    SkipToks(s, i);
    PeekRedir(s, i);
    if ts == [] {
      NoSimple(s, i);
      assert ts + rest == rest;
    } else {
      HeadRedir(ts);
      HeadTok(s, i, ts, rest);
      var t := Gettoken(s, i);
      HeadTok(s, t.next, ts[1..], rest);
      var f := Gettoken(s, t.next);
      var r := RedirectionFor(t.tok, Span(f.q, f.eq));
      FileOk(s, t.next, rs, r);
      assert ts[1..][1..] == ts[2..];
      RedirsComplete(s, f.next, ts[2..], rest, rs + [r]);
      assert rs + [r] + RedirsOf(ts[2..]) == rs + RedirsOf(ts);
    }
  }

  lemma StopsNoRedir(rest: seq<Lexeme>)
    requires Stops(rest)
    ensures NoRedirNext(rest)
  {
  }

  lemma ConcatSuffix(ts: seq<Lexeme>, k: nat, rest: seq<Lexeme>)
    requires k <= |ts|
    ensures ts + rest == ts[..k] + (ts[k..] + rest)
  {
  }

  lemma {:induction false} ArgsComplete(s: string, i: nat, ts: seq<Lexeme>, rest: seq<Lexeme>, argv: seq<Span>, rs: seq<Redirection>)
    requires i <= |s| && FilesOk(s, rs) && WordsOk(s, argv)
    requires Toks(s, i) == ts + rest && SimpleOk(ts) && Stops(rest) && (ts == [] || ts[0].tok == Word)
    requires |argv + WordsOf(ts)| < MAXARGS
    ensures var r := Args(s, i, argv, rs);
            && r.Ok? && r.value == Wrap(Exec(argv + WordsOf(ts)), rs + RedirsOf(ts))
            && r.pos <= |s| && Toks(s, r.pos) == rest
    decreases |ts|
  {
    hide Gettoken, PeekAt, SkipSpace, IsToken, FilesOk, Toks, Wrap, Redirs, WordsOk, SimpleOk, WordsOf, RedirsOf;
    SkipToks(s, i);
    PeekStop(s, i);
    NextTok(s, i);
    NoSimple(s, i);
    if ts == [] {
      assert ts + rest == rest && argv + [] == argv && rs + [] == rs;
    } else {
      HeadTok(s, i, ts, rest);
      HeadWord(ts);
      var t, tail := Gettoken(s, i), ts[1..];
      var k := SplitLead(tail);
      ConcatSuffix(tail, k, rest);
      StopsNoRedir(rest);
      RedirsComplete(s, t.next, tail[..k], tail[k..] + rest, rs);
      var r := Redirs(s, t.next, rs);
      WordOk(s, i, argv);
      RedirsFiles(s, t.next, rs);
      assert argv + WordsOf(ts) == argv + [Span(t.q, t.eq)] + WordsOf(tail[k..]);
      ArgsComplete(s, r.pos, tail[k..], rest, argv + [Span(t.q, t.eq)], r.value);
      assert r.value + RedirsOf(tail[k..]) == rs + RedirsOf(ts);
    }
  }

  lemma HeadWord(ts: seq<Lexeme>)
    requires SimpleOk(ts) && ts != [] && ts[0].tok == Word
    ensures SimpleOk(ts[1..]) && RedirsOf(ts) == RedirsOf(ts[1..])
    ensures WordsOf(ts) == [Span(ts[0].q, ts[0].eq)] + WordsOf(ts[1..])
  {
  }

  lemma RedirsFiles(s: string, i: nat, rs: seq<Redirection>)
    requires i <= |s| && FilesOk(s, rs)
    ensures Redirs(s, i, rs).Ok? ==> FilesOk(s, Redirs(s, i, rs).value) && Redirs(s, i, rs).pos <= |s|
  {
  }

  lemma SimpleComplete(s: string, i: nat, ts: seq<Lexeme>, rest: seq<Lexeme>, c: Cmd)
    requires i <= |s| && Toks(s, i) == ts + rest && Stops(rest) && SimpleG(ts, c)
    ensures var r := ParseExec(s, i);
            r.Ok? && r.value == c && r.pos <= |s| && Toks(s, r.pos) == rest
  {
    hide Gettoken, PeekAt, SkipSpace, Toks, Redirs, Args, Wrap, FilesOk, WordsOk, WordsOf, RedirsOf;
    SkipToks(s, i);
    PeekOne(s, i, '(');
    var p := SkipSpace(s, i);
    var k := SplitLead(ts);
    ConcatSuffix(ts, k, rest);
    StopsNoRedir(rest);
    Nothing(s);
    RedirsComplete(s, p, ts[..k], ts[k..] + rest, []);
    var r := Redirs(s, p, []);
    RedirsFiles(s, p, []);
    assert [] + WordsOf(ts[k..]) == WordsOf(ts);
    ArgsComplete(s, r.pos, ts[k..], rest, [], r.value);
    assert r.value + RedirsOf(ts[k..]) == RedirsOf(ts);
  }

  lemma Nothing(s: string)
    ensures FilesOk(s, []) && WordsOk(s, [])
  {
  }

  lemma {:induction false} BlockComplete(s: string, i: nat, ts: seq<Lexeme>, rest: seq<Lexeme>, c: Cmd, k: nat)
    requires i <= |s| && Toks(s, i) == ts + rest && Stops(rest) && BlockAt(ts, c, k)
    ensures var r := ParseExec(s, i);
            r.Ok? && r.value == c && r.pos <= |s| && Toks(s, r.pos) == rest
    decreases |ts|, 0
  {
    hide Gettoken, PeekAt, SkipSpace, Toks, Redirs, ParseLine, Wrap, FilesOk, LineG;
    SkipToks(s, i);
    PeekOne(s, i, '(');
    var p := SkipSpace(s, i);
    OpenAt(s, i);
    HeadTok(s, p, ts, rest);
    var t := Gettoken(s, p);
    var b := ts[k + 1..];
    var rs := RedirsOf(b);
    BlockParts(ts, rest, k);
    LineComplete(s, t.next, ts[1..k], [ts[k]] + (b + rest), Inner(c, |rs|));
    var d := ParseLine(s, t.next);
    PeekOne(s, d.pos, ')');
    HeadTok(s, d.pos, [ts[k]], b + rest);
    assert [ts[k]][1..] + (b + rest) == b + rest;
    StopsNoRedir(rest);
    Nothing(s);
    RedirsComplete(s, Gettoken(s, d.pos).next, b, rest, []);
    assert [] + rs == rs;
  }

  lemma BlockParts(ts: seq<Lexeme>, rest: seq<Lexeme>, k: nat)
    requires 0 < k < |ts|
    ensures ts[1..] + rest == ts[1..k] + ([ts[k]] + (ts[k + 1..] + rest))
  {
  }

  lemma OpenAt(s: string, i: nat)
    requires i <= |s| && PeekAt(s, i, "(")
    ensures SkipSpace(s, i) < |s| && s[SkipSpace(s, i)] == '('
  {
  }

  lemma {:induction false} ExecComplete(s: string, i: nat, ts: seq<Lexeme>, rest: seq<Lexeme>, c: Cmd)
    requires i <= |s| && Toks(s, i) == ts + rest && Stops(rest) && ExecG(ts, c)
    ensures var r := ParseExec(s, i);
            r.Ok? && r.value == c && r.pos <= |s| && Toks(s, r.pos) == rest
    decreases |ts|, 1
  {
    hide Gettoken, Toks, ParseExec, BlockAt, SimpleG;
    if SimpleG(ts, c) {
      SimpleComplete(s, i, ts, rest, c);
    } else {
      var k: nat :| BlockAt(ts, c, k);
      BlockComplete(s, i, ts, rest, c, k);
    }
  }

  lemma {:induction false} PipeComplete(s: string, i: nat, ts: seq<Lexeme>, rest: seq<Lexeme>, c: Cmd)
    requires i <= |s| && Toks(s, i) == ts + rest && PipeG(ts, c)
    requires Stops(rest) && (rest != [] ==> rest[0].tok != Symbol('|'))
    ensures var r := ParsePipe(s, i);
            r.Ok? && r.value == c && r.pos <= |s| && Toks(s, r.pos) == rest
    decreases |ts|, 3
  {
    hide Gettoken, PeekAt, SkipSpace, Toks, ParseExec, ExecG;
    if ExecG(ts, c) {
      ExecComplete(s, i, ts, rest, c);
      var d := ParseExec(s, i);
      PeekOne(s, d.pos, '|');
      SkipToks(s, d.pos);
    } else {
      var k: nat :| BarAt(ts, c, k);
      ConcatAt(ts, k, rest);
      var after := [ts[k]] + (ts[k + 1..] + rest);
      ExecComplete(s, i, ts[..k], after, c.left);
      var d := ParseExec(s, i);
      PeekOne(s, d.pos, '|');
      HeadTok(s, d.pos, [ts[k]], ts[k + 1..] + rest);
      assert [ts[k]][1..] + (ts[k + 1..] + rest) == ts[k + 1..] + rest;
      PipeComplete(s, Gettoken(s, d.pos).next, ts[k + 1..], rest, c.right);
    }
  }

  lemma ConcatAt(ts: seq<Lexeme>, k: nat, rest: seq<Lexeme>)
    requires k < |ts|
    ensures ts + rest == ts[..k] + ([ts[k]] + (ts[k + 1..] + rest))
  {
  }

  lemma {:induction false} BacksComplete(s: string, i: nat, ts: seq<Lexeme>, rest: seq<Lexeme>, c: Cmd)
    requires i <= |s| && SpansOk(s, c) && Toks(s, i) == ts + rest && AllBack(ts)
    requires rest != [] ==> rest[0].tok != Symbol('&')
    ensures var r := Backs(s, i, c); r.0 == BackN(c, |ts|) && r.1 <= |s| && Toks(s, r.1) == rest
    decreases |ts|
  {
    hide Gettoken, PeekAt, SkipSpace, Toks;
    PeekOne(s, i, '&');
    SkipToks(s, i);
    if ts == [] {
      assert ts + rest == rest;
    } else {
      HeadTok(s, i, ts, rest);
      BacksComplete(s, Gettoken(s, i).next, ts[1..], rest, Back(c));
      BackInside(c, |ts| - 1);
    }
  }

  /** A pipe and its background marks, as parseline reads them. */
  lemma {:induction false} BackedComplete(s: string, i: nat, ts: seq<Lexeme>, rest: seq<Lexeme>, c: Cmd)
    requires i <= |s| && Toks(s, i) == ts + rest && BackedG(ts, c)
    requires rest == [] || rest[0].tok == Symbol(';') || rest[0].tok == Symbol(')')
    ensures var d := ParsePipe(s, i);
            && d.Ok? && d.pos <= |s| && SpansOk(s, d.value)
            && var r := Backs(s, d.pos, d.value); r.0 == c && r.1 <= |s| && Toks(s, r.1) == rest
    decreases |ts|, 5
  {
    hide Gettoken, SkipSpace, Toks, ParsePipe, Backs, SpansOk, PipeG;
    var k: nat :| BacksAt(ts, c, k);
    ConcatSuffix(ts, k, rest);
    PipeSpans(s, i);
    PipeComplete(s, i, ts[..k], ts[k..] + rest, Front(c, |ts| - k));
    var d := ParsePipe(s, i);
    BacksComplete(s, d.pos, ts[k..], rest, d.value);
  }

  lemma {:induction false} LineComplete(s: string, i: nat, ts: seq<Lexeme>, rest: seq<Lexeme>, c: Cmd)
    requires i <= |s| && Toks(s, i) == ts + rest && LineG(ts, c)
    requires rest == [] || rest[0].tok == Symbol(')')
    ensures var r := ParseLine(s, i);
            r.Ok? && r.value == c && r.pos <= |s| && Toks(s, r.pos) == rest
    decreases |ts|, 7
  {
    hide Gettoken, PeekAt, SkipSpace, Toks, ParsePipe, Backs, SpansOk, BackedG;
    if BackedG(ts, c) {
      BackedComplete(s, i, ts, rest, c);
      var d := ParsePipe(s, i);
      var p := Backs(s, d.pos, d.value).1;
      PeekOne(s, p, ';');
      SkipToks(s, p);
    } else {
      var k: nat :| SemiAt(ts, c, k);
      ConcatAt(ts, k, rest);
      BackedComplete(s, i, ts[..k], [ts[k]] + (ts[k + 1..] + rest), c.left);
      var d := ParsePipe(s, i);
      var p := Backs(s, d.pos, d.value).1;
      PeekOne(s, p, ';');
      HeadTok(s, p, [ts[k]], ts[k + 1..] + rest);
      assert [ts[k]][1..] + (ts[k + 1..] + rest) == ts[k + 1..] + rest;
      LineComplete(s, Gettoken(s, p).next, ts[k + 1..], rest, c.right);
    }
  }

  // ---------------------------------------------------------------- the parser decides the grammar

  lemma EndToks(s: string, i: nat)
    requires i <= |s|
    ensures Toks(s, i) == [] <==> SkipSpace(s, i) == |s|
  {
    NextTok(s, i);
  }

  /** For every line and every command: the parser gives the command if and only if the grammar does. */
  lemma ParseExactly(s: string, c: Cmd)
    ensures (Parse(s).Ok? && Parse(s).value == c) <==> LineG(Toks(s, 0), c)
  {
    hide Toks, SkipSpace, ParseLine, LineG;
    if Parse(s).Ok? {
      var ts := LineSound(s, 0);
      EndToks(s, ParseLine(s, 0).pos);
      assert ts + [] == ts;
    }
    if LineG(Toks(s, 0), c) {
      assert Toks(s, 0) + [] == Toks(s, 0);
      LineComplete(s, 0, Toks(s, 0), [], c);
      EndToks(s, ParseLine(s, 0).pos);
    }
  }

  /** So no line has two commands. */
  lemma Unambiguous(s: string, c: Cmd, d: Cmd)
    requires LineG(Toks(s, 0), c) && LineG(Toks(s, 0), d)
    ensures c == d
  {
    hide Toks, LineG, Parse;
    ParseExactly(s, c);
    ParseExactly(s, d);
  }
}
