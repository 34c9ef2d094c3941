/** gettoken, peek, the recursive-descent parser and nulterminate of sh.c, with the position they advance. */
module ShellCode {
  import opened Shell

  class Parser {
    const s: string
    var ps: nat

    ghost predicate Valid()
      reads this
    {
      ps <= |s|
    }

    constructor (s: string)
      ensures Valid() && this.s == s && ps == 0
    {
      this.s, ps := s, 0;
    }

    method Skip()
      requires Valid()
      modifies this
      ensures Valid() && ps == SkipSpace(s, old(ps))
    {
      while ps < |s| && IsSpace(s[ps])
        invariant Valid() && SkipSpace(s, ps) == SkipSpace(s, old(ps))
        decreases |s| - ps
      {
        ps := ps + 1;
      }
    }

    method NextToken() returns (l: Lexeme)
      requires Valid()
      modifies this
      ensures Valid() && l == Gettoken(s, old(ps)) && ps == l.next
    {
      Skip();
      var q := ps;
      var tok := End;
      if ps < |s| {
        if s[ps] == '>' {
          ps := ps + 1;
          tok := Symbol('>');
          if ps < |s| && s[ps] == '>' {
            tok := Append;
            ps := ps + 1;
          }
        } else if IsSymbol(s[ps]) {
          tok := Symbol(s[ps]);
          ps := ps + 1;
        } else {
          tok := Word;
          while ps < |s| && !IsSpace(s[ps]) && !IsSymbol(s[ps])
            invariant Valid() && WordEnd(s, ps) == WordEnd(s, q)
            decreases |s| - ps
          {
            ps := ps + 1;
          }
        }
      }
      var eq := ps;
      Skip();
      l := Lexeme(tok, q, eq, ps);
    }

    method Peek(toks: string) returns (there: bool)
      requires Valid()
      modifies this
      ensures Valid() && there == PeekAt(s, old(ps), toks) && ps == SkipSpace(s, old(ps))
    {
      Skip();
      there := ps < |s| && s[ps] in toks;
    }

    /** The redirections from here on, behind those found before. */
    method Redirections(before: seq<Redirection>) returns (r: Result<seq<Redirection>>)
      requires Valid() && FilesOk(s, before)
      modifies this
      ensures Valid() && r == Redirs(s, old(ps), before) && (r.Ok? ==> ps == r.pos)
    {
      hide TokenAt;
      var rs := before;
      while true
        invariant Valid() && FilesOk(s, rs)
        invariant Redirs(s, ps, rs) == Redirs(s, old(ps), before)
        decreases |s| - ps
      {
        var more := Peek("<>");
        if !more {
          return Ok(rs, ps);
        }
        var t := NextToken();
        var f := NextToken();
        if f.tok != Word {
          return Fail(MissingFile);
        }
        rs := rs + [RedirectionFor(t.tok, Span(f.q, f.eq))];
      }
    }

    /** The words of a simple command with their redirections; rs holds those before the first word. */
    method Arguments(rs: seq<Redirection>) returns (r: Result<Cmd>)
      requires Valid() && FilesOk(s, rs)
      modifies this
      ensures Valid() && r == Args(s, old(ps), [], rs) && (r.Ok? ==> ps == r.pos)
    {
      hide TokenAt, Wrap;
      var argv: seq<Span>, all := [], rs;
      while true
        invariant Valid() && FilesOk(s, all) && WordsOk(s, argv) && |argv| < MAXARGS
        invariant Args(s, ps, argv, all) == Args(s, old(ps), [], rs)
        decreases |s| - ps
      {
        var stop := Peek("|)&;");
        if stop {
          return Ok(Wrap(Exec(argv), all), ps);
        }
        var t := NextToken();
        if t.tok == End {
          return Ok(Wrap(Exec(argv), all), ps);
        }
        if t.tok != Word {
          return Fail(Syntax);
        }
        var words := argv + [Span(t.q, t.eq)];
        if |words| >= MAXARGS {
          return Fail(TooManyArgs);
        }
        var more := Redirections(all);
        if more.Fail? {
          return Fail(more.error);
        }
        argv, all := words, more.value;
      }
    }

    method Parseexec() returns (r: Result<Cmd>)
      requires Valid()
      modifies this
      ensures Valid() && r == ParseExec(s, old(ps)) && (r.Ok? ==> ps == r.pos)
      decreases |s| - ps, 1
    {
      var block := Peek("(");
      if block {
        r := Parseblock();
        return;
      }
      var rs := Redirections([]);
      if rs.Fail? {
        return Fail(rs.error);
      }
      r := Arguments(rs.value);
    }

    method Parseblock() returns (r: Result<Cmd>)
      requires Valid() && ps < |s| && s[ps] == '('
      modifies this
      ensures Valid() && r == ParseBlock(s, old(ps)) && (r.Ok? ==> ps == r.pos)
      decreases |s| - ps, 0
    {
      var t := NextToken();
      var c := Parseline();
      if c.Fail? {
        return c;
      }
      var closed := Peek(")");
      if !closed {
        return Fail(MissingParen);
      }
      var u := NextToken();
      var rs := Redirections([]);
      if rs.Fail? {
        return Fail(rs.error);
      }
      return Ok(Wrap(c.value, rs.value), ps);
    }

    method Parsepipe() returns (r: Result<Cmd>)
      requires Valid()
      modifies this
      ensures Valid() && r == ParsePipe(s, old(ps)) && (r.Ok? ==> ps == r.pos)
      decreases |s| - ps, 2
    {
      var c := Parseexec();
      if c.Fail? {
        return c;
      }
      var more := Peek("|");
      if !more {
        return Ok(c.value, ps);
      }
      var t := NextToken();
      var d := Parsepipe();
      return if d.Fail? then d else Ok(Pipe(c.value, d.value), d.pos);
    }

    method Parseline() returns (r: Result<Cmd>)
      requires Valid()
      modifies this
      ensures Valid() && r == ParseLine(s, old(ps)) && (r.Ok? ==> ps == r.pos)
      decreases |s| - ps, 3
    {
      var c := Parsepipe();
      if c.Fail? {
        return c;
      }
      var b := Ampersands(c.value);
      var more := Peek(";");
      if !more {
        return Ok(b, ps);
      }
      var t := NextToken();
      var d := Parseline();
      return if d.Fail? then d else Ok(List(b, d.value), d.pos);
    }

    /** The loop of parseline over '&'. */
    method Ampersands(c: Cmd) returns (b: Cmd)
      requires Valid() && SpansOk(s, c)
      modifies this
      ensures Valid() && (b, ps) == Backs(s, old(ps), c)
    {
      b := c;
      while true
        invariant Valid() && SpansOk(s, b)
        invariant Backs(s, ps, b) == Backs(s, old(ps), c)
        decreases |s| - ps
      {
        var more := Peek("&");
        if !more {
          return;
        }
        var t := NextToken();
        b := Back(b);
      }
    }
  }

  // ---------------------------------------------------------------- nulterminate

  /** The positions just past a command's words. */
  ghost function Ends(c: Cmd): set<nat> {
    match c
    case Exec(argv) => set k | 0 <= k < |argv| :: argv[k].eq
    case Redir(d, r) => Ends(d) + {r.file.eq}
    case Pipe(l, r) => Ends(l) + Ends(r)
    case List(l, r) => Ends(l) + Ends(r)
    case Back(d) => Ends(d)
  }

  ghost predicate HasWord(c: Cmd, w: Span) {
    match c
    case Exec(argv) => w in argv
    case Redir(d, r) => HasWord(d, w) || r.file == w
    case Pipe(l, r) => HasWord(l, w) || HasWord(r, w)
    case List(l, r) => HasWord(l, w) || HasWord(r, w)
    case Back(d) => HasWord(d, w)
  }

  method Nulterminate(buf: array<char>, ghost s: string, c: Cmd)
    requires SpansOk(s, c) && buf.Length == |s| + 1
    modifies buf
    ensures forall k :: 0 <= k < buf.Length ==> buf[k] == if k in Ends(c) then NUL else old(buf[k])
    decreases c
  {
    match c
    case Exec(argv) =>
      var i := 0;
      while i < |argv|
        invariant 0 <= i <= |argv|
        invariant forall k :: 0 <= k < buf.Length ==> buf[k] == if exists j :: 0 <= j < i && argv[j].eq == k then NUL else old(buf[k])
      {
        assert IsToken(s, argv[i]);
        buf[argv[i].eq] := NUL;
        i := i + 1;
      }
    case Redir(d, r) =>
      Nulterminate(buf, s, d);
      buf[r.file.eq] := NUL;
    case Pipe(l, r) =>
      Nulterminate(buf, s, l);
      Nulterminate(buf, s, r);
    case List(l, r) =>
      Nulterminate(buf, s, l);
      Nulterminate(buf, s, r);
    case Back(d) => Nulterminate(buf, s, d);
  }

  /** The C string that starts at q. */
  function CString(b: seq<char>, q: nat): string
    decreases |b| - q
  {
    if q >= |b| || b[q] == NUL then "" else [b[q]] + CString(b, q + 1)
  }

  lemma {:induction false} CStringIs(b: seq<char>, q: nat, e: nat)
    requires q <= e < |b| && b[e] == NUL && forall k :: q <= k < e ==> b[k] != NUL
    ensures CString(b, q) == b[q..e]
    decreases e - q
  {
    if q < e {
      CStringIs(b, q + 1, e);
      assert b[q..e] == [b[q]] + b[q + 1..e];
    }
  }

  /** No NUL is written inside a word: every end of a word is outside all words. */
  lemma {:induction false} EndsOutside(s: string, c: Cmd, e: nat)
    requires SpansOk(s, c) && e in Ends(c)
    ensures e <= |s| && (e < |s| ==> !InWord(s[e]))
  {
    match c
    case Exec(argv) =>
      var k :| 0 <= k < |argv| && argv[k].eq == e;
      assert IsToken(s, argv[k]);
    case Redir(d, r) => if e in Ends(d) { EndsOutside(s, d, e); }
    case Pipe(l, r) => if e in Ends(l) { EndsOutside(s, l, e); } else { EndsOutside(s, r, e); }
    case List(l, r) => if e in Ends(l) { EndsOutside(s, l, e); } else { EndsOutside(s, r, e); }
    case Back(d) => EndsOutside(s, d, e);
  }

  lemma {:induction false} WordsAreTokens(s: string, c: Cmd, w: Span)
    requires SpansOk(s, c) && HasWord(c, w)
    ensures IsToken(s, w) && w.eq in Ends(c)
  {
    match c
    case Exec(argv) =>
      var k :| 0 <= k < |argv| && argv[k] == w;
    case Redir(d, r) => if HasWord(d, w) { WordsAreTokens(s, d, w); }
    case Pipe(l, r) => if HasWord(l, w) { WordsAreTokens(s, l, w); } else { WordsAreTokens(s, r, w); }
    case List(l, r) => if HasWord(l, w) { WordsAreTokens(s, l, w); } else { WordsAreTokens(s, r, w); }
    case Back(d) => WordsAreTokens(s, d, w);
  }

  /** After nulterminate every stored word reads back as exactly its token. */
  lemma ReadsBack(s: string, c: Cmd, b: seq<char>, w: Span)
    requires NUL !in s && SpansOk(s, c) && HasWord(c, w) && |b| == |s| + 1
    requires forall k :: 0 <= k <= |s| ==> b[k] == if k in Ends(c) || k == |s| then NUL else s[k]
    ensures w.q < w.eq <= |s| && CString(b, w.q) == s[w.q..w.eq]
  {
    hide SpansOk, HasWord, Ends;
    WordsAreTokens(s, c, w);
    forall k | w.q <= k < w.eq
      ensures b[k] == s[k]
    {
      if k in Ends(c) {
        EndsOutside(s, c, k);
      }
    }
    CStringIs(b, w.q, w.eq);
  }

  /** parsecmd on a line s: the command, and the line's buffer in which its words can be read as C strings. */
  method Parsecmd(s: string) returns (r: Result<Cmd>, buf: array<char>)
    requires NUL !in s
    ensures r == Parse(s) && buf.Length == |s| + 1 && fresh(buf)
    ensures r.Ok? ==> forall w :: HasWord(r.value, w) ==> w.q < w.eq <= |s| && CString(buf[..], w.q) == s[w.q..w.eq]
    ensures r.Fail? ==> buf[..] == s + [NUL]
  {
    buf := new char[|s| + 1](i => if 0 <= i < |s| then s[i] else NUL);
    var p := new Parser(s);
    r := p.Parseline();
    if r.Fail? {
      return;
    }
    var rest := p.Peek("");
    if p.ps != |s| {
      r := Fail(Leftovers);
      return;
    }
    r := Ok(r.value, |s|);
    Nulterminate(buf, s, r.value);
    forall w | HasWord(r.value, w)
      ensures w.q < w.eq <= |s| && CString(buf[..], w.q) == s[w.q..w.eq]
    {
      ReadsBack(s, r.value, buf[..], w);
    }
  }
}
