/**
 The regular expression matcher of grep.c, proved against a declarative meaning of patterns. A C string is
 the sequence of its characters before the terminating NUL; a text pointer is a text and an index into it.
 */
module Grep {

  /** A pattern as a list of pieces; `.` stands for any character inside One and Star. */
  datatype Piece = One(c: char) | Star(c: char) | AtEnd

  function Pieces(re: string): seq<Piece> {
    if re == "" then []
    else if |re| >= 2 && re[1] == '*' then [Star(re[0])] + Pieces(re[2..])
    else if re == "$" then [AtEnd]
    else [One(re[0])] + Pieces(re[1..])
  }

  predicate Fits(c: char, x: char) {
    c == '.' || c == x
  }

  /** text[i..j] is something the piece stands for. */
  ghost predicate Covers(piece: Piece, text: string, i: int, j: int) {
    && 0 <= i <= j <= |text|
    && match piece
       case One(c) => j == i + 1 && Fits(c, text[i])
       case Star(c) => forall k :: i <= k < j ==> Fits(c, text[k])
       case AtEnd => i == j == |text|
  }

  /** cuts divides a stretch of the text that starts at `from` into consecutive parts, one for each piece. */
  ghost predicate Divides(cuts: seq<int>, pieces: seq<Piece>, text: string, from: int) {
    && |cuts| == |pieces| + 1
    && cuts[0] == from
    && forall k :: 0 <= k < |pieces| ==> Covers(pieces[k], text, cuts[k], cuts[k + 1])
  }

  /** The meaning: some division of the text from here on. */
  ghost predicate Occurs(pieces: seq<Piece>, text: string, from: int) {
    exists cuts :: Divides(cuts, pieces, text, from)
  }

  /** The meaning of a whole pattern, with its optional anchor. */
  ghost predicate Means(re: string, text: string) {
    if re != "" && re[0] == '^' then Occurs(Pieces(re[1..]), text, 0)
    else exists i :: 0 <= i <= |text| && Occurs(Pieces(re), text, i)
  }

  lemma NothingOccurs(text: string, i: int)
    ensures Occurs([], text, i)
  {
    assert Divides([i], [], text, i);
  }

  lemma OccursFirst(pieces: seq<Piece>, text: string, i: int)
    requires pieces != [] && Occurs(pieces, text, i)
    ensures exists j :: Covers(pieces[0], text, i, j) && Occurs(pieces[1..], text, j)
  {
    var cuts :| Divides(cuts, pieces, text, i);
    assert Covers(pieces[0], text, cuts[0], cuts[0 + 1]);
    assert Divides(cuts[1..], pieces[1..], text, cuts[1]);
  }

  lemma OccursCons(pieces: seq<Piece>, text: string, i: int, j: int)
    requires pieces != [] && Covers(pieces[0], text, i, j) && Occurs(pieces[1..], text, j)
    ensures Occurs(pieces, text, i)
  {
    var cuts :| Divides(cuts, pieces[1..], text, j);
    assert Divides([i] + cuts, pieces, text, i);
  }

  /** Search for re at position i of text. */
  method MatchHere(re: string, text: string, i: nat) returns (found: bool)
    requires i <= |text|
    ensures found <==> Occurs(Pieces(re), text, i)
    decreases |re|, 0
  {
    ghost var pieces := Pieces(re);
    if re == "" {
      NothingOccurs(text, i);
      return true;
    }
    if |re| >= 2 && re[1] == '*' {
      found := MatchStar(re[0], re[2..], text, i);
      assert pieces == [Star(re[0])] + Pieces(re[2..]);
      return;
    }
    assert pieces[1..] == if re == "$" then [] else Pieces(re[1..]);
    if Occurs(pieces, text, i) {
      OccursFirst(pieces, text, i);
    }
    if re[0] == '$' && |re| == 1 {
      if i == |text| {
        NothingOccurs(text, i);
        OccursCons(pieces, text, i, i);
      }
      return i == |text|;
    }
    if i < |text| && (re[0] == '.' || re[0] == text[i]) {
      found := MatchHere(re[1..], text, i + 1);
      if found {
        OccursCons(pieces, text, i, i + 1);
      }
      return;
    }
    return false;
  }

  /** Search for c*re at position i of text. */
  method MatchStar(c: char, re: string, text: string, i: nat) returns (found: bool)
    requires i <= |text|
    ensures found <==> Occurs([Star(c)] + Pieces(re), text, i)
    decreases |re|, 1
  {
    ghost var pieces := [Star(c)] + Pieces(re);
    assert pieces[1..] == Pieces(re);
    var k: nat := i;
    while true
      invariant i <= k <= |text|
      invariant forall j :: i <= j < k ==> Fits(c, text[j]) && !Occurs(Pieces(re), text, j)
      decreases |text| - k
    {
      var here := MatchHere(re, text, k);
      if here {
        OccursCons(pieces, text, i, k);
        return true;
      }
      if !(k < |text| && (text[k] == c || c == '.')) {
        if Occurs(pieces, text, i) {
          OccursFirst(pieces, text, i);
        }
        return false;
      }
      k := k + 1;
    }
  }

  /** Search for re anywhere in text: true exactly when the meaning of the pattern holds. */
  method Match(re: string, text: string) returns (found: bool)
    ensures found <==> Means(re, text)
  {
    if re != "" && re[0] == '^' {
      found := MatchHere(re[1..], text, 0);
      return;
    }
    var k: nat := 0;
    while true
      invariant k <= |text|
      invariant forall j :: 0 <= j < k ==> !Occurs(Pieces(re), text, j)
      decreases |text| - k
    {
      var here := MatchHere(re, text, k);
      if here {
        return true;
      }
      if k == |text| {
        return false;
      }
      k := k + 1;
    }
  }

  function Unparse(pieces: seq<Piece>): string {
    if pieces == [] then ""
    else (match pieces[0]
          case One(c) => [c]
          case Star(c) => [c, '*']
          case AtEnd => "$") + Unparse(pieces[1..])
  }

  /**
   How pieces are told apart: a `*` always belongs to the character before it unless that one is starred already, and a
   `$` is an end anchor just when it is last.
   */
  predicate Canonical(pieces: seq<Piece>) {
    && (forall k :: 0 <= k < |pieces| - 1 ==>
          pieces[k] != AtEnd && (pieces[k].One? ==> pieces[k + 1] == AtEnd || pieces[k + 1].c != '*'))
    && (pieces != [] ==> pieces[|pieces| - 1] != One('$'))
  }

  lemma ConsCanonical(first: Piece, pieces: seq<Piece>)
    requires Canonical(pieces)
    requires if pieces == [] then first != One('$')
             else first != AtEnd && (first.One? ==> pieces[0] == AtEnd || pieces[0].c != '*')
    ensures Canonical([first] + pieces)
  {
  }

  /** What is read first from a pattern begins with the pattern's first character. */
  lemma FirstRead(re: string)
    requires re != ""
    ensures Pieces(re) != []
    ensures Pieces(re)[0] == AtEnd || Pieces(re)[0].c == re[0]
  {
  }

  /** Reading a pattern as pieces loses nothing. */
  lemma {:induction false} PiecesRoundTrip(re: string)
    ensures Unparse(Pieces(re)) == re
    decreases |re|
  {
    if re == "" {
    } else if |re| >= 2 && re[1] == '*' {
      PiecesRoundTrip(re[2..]);
      assert Pieces(re)[1..] == Pieces(re[2..]);
      assert re == [re[0], '*'] + re[2..];
    } else if re == "$" {
      assert Unparse([AtEnd][1..]) == "";
    } else {
      PiecesRoundTrip(re[1..]);
      assert Pieces(re)[1..] == Pieces(re[1..]);
      assert re == [re[0]] + re[1..];
    }
  }

  lemma ShortCanonical()
    ensures Canonical([]) && Canonical([AtEnd])
  {
  }

  /** The pieces read are told apart as they should be. */
  lemma {:induction false} PiecesCanonical(re: string)
    ensures Canonical(Pieces(re))
    decreases |re|
  {
    hide Canonical;
    if re == "" || re == "$" {
      ShortCanonical();
    } else if |re| >= 2 && re[1] == '*' {
      PiecesCanonical(re[2..]);
      ConsCanonical(Star(re[0]), Pieces(re[2..]));
    } else {
      PiecesCanonical(re[1..]);
      if |re| > 1 {
        FirstRead(re[1..]);
      }
      ConsCanonical(One(re[0]), Pieces(re[1..]));
    }
  }

  /** No other reading does that: pieces so told apart are the ones read from what they spell. */
  lemma {:induction false} ReadingUnique(pieces: seq<Piece>)
    requires Canonical(pieces)
    ensures Pieces(Unparse(pieces)) == pieces
    decreases |pieces|
  {
    if pieces == [] {
    } else {
      var rest := pieces[1..];
      var s := Unparse(pieces);
      assert rest != [] ==> rest[|rest| - 1] == pieces[|pieces| - 1];
      ReadingUnique(rest);
      assert pieces == [pieces[0]] + rest;
      match pieces[0] {
        case Star(c) =>
          assert s == [c, '*'] + Unparse(rest) && s[2..] == Unparse(rest);
        case AtEnd =>
          assert rest == [] && s == "$";
        case One(c) =>
          assert s == [c] + Unparse(rest) && s[1..] == Unparse(rest);
          if rest != [] {
            assert rest[0] == pieces[1];
            assert Unparse(rest)[0] == (if rest[0] == AtEnd then '$' else rest[0].c);
          }
      }
    }
  }

  // ---------------------------------------------------------------- what patterns mean

  /** No character with a meaning of its own. */
  predicate Plain(re: string) {
    forall k :: 0 <= k < |re| ==> re[k] != '^' && re[k] != '$' && re[k] != '.' && re[k] != '*'
  }

  /** A literal character occurs where the text has it. */
  lemma OneOccurs(c: char, pieces: seq<Piece>, text: string, i: nat)
    requires c != '.' && i <= |text|
    ensures Occurs([One(c)] + pieces, text, i) <==> i < |text| && text[i] == c && Occurs(pieces, text, i + 1)
  {
    var ps := [One(c)] + pieces;
    assert ps[1..] == pieces;
    if Occurs(ps, text, i) {
      OccursFirst(ps, text, i);
    }
    if i < |text| && text[i] == c && Occurs(pieces, text, i + 1) {
      OccursCons(ps, text, i, i + 1);
    }
  }

  /** Literal characters occur where the text has them, one after the other. */
  lemma {:induction false} PlainOccurs(re: string, tail: string, text: string, i: nat)
    requires Plain(re) && (tail == "" || tail[0] != '*') && i <= |text|
    ensures Occurs(Pieces(re + tail), text, i) <==>
            i + |re| <= |text| && text[i..i + |re|] == re && Occurs(Pieces(tail), text, i + |re|)
    decreases |re|
  {
    hide Occurs;
    if re == "" {
      assert re + tail == tail;
    } else {
      assert (re + tail)[1..] == re[1..] + tail;
      assert Pieces(re + tail) == [One(re[0])] + Pieces(re[1..] + tail);
      OneOccurs(re[0], Pieces(re[1..] + tail), text, i);
      if i < |text| {
        PlainOccurs(re[1..], tail, text, i + 1);
        if i + |re| <= |text| {
          assert text[i..i + |re|] == [text[i]] + text[i + 1..i + |re|];
          assert re == [re[0]] + re[1..];
        }
      }
    }
  }

  /** A plain pattern means that the text contains it. */
  lemma PlainMeans(re: string, text: string)
    requires Plain(re)
    ensures Means(re, text) <==> exists i: nat :: i <= |text| && re <= text[i..]
  {
    assert re + "" == re;
    forall i: nat | i <= |text|
      ensures Occurs(Pieces(re), text, i) <==> re <= text[i..]
    {
      PlainOccurs(re, "", text, i);
      NothingOccurs(text, i + |re|);
      assert i + |re| <= |text| ==> text[i..i + |re|] == text[i..][..|re|];
    }
  }

  /** With '^' in front it means that the text begins with it. */
  lemma AnchoredMeans(re: string, text: string)
    requires Plain(re)
    ensures Means("^" + re, text) <==> re <= text
  {
    assert ("^" + re)[1..] == re && re + "" == re;
    PlainOccurs(re, "", text, 0);
    NothingOccurs(text, |re|);
    NothingOccurs(text, 0);
    assert |re| <= |text| ==> (text[0..|re|] == re <==> re <= text);
  }

  /** With '$' behind it means that the text ends with it. */
  lemma EndMeans(re: string, text: string)
    requires Plain(re)
    ensures Means(re + "$", text) <==> |re| <= |text| && text[|text| - |re|..] == re
  {
    assert Pieces("$") == [AtEnd];
    forall i: nat | i <= |text|
      ensures Occurs(Pieces(re + "$"), text, i) <==> i + |re| == |text| && text[i..] == re
    {
      PlainOccurs(re, "$", text, i);
      EndOccurs(text, i);
      EndOccurs(text, i + |re|);
      assert i + |re| == |text| ==> text[i..i + |re|] == text[i..];
    }
    assert |re| <= |text| ==> Occurs(Pieces(re + "$"), text, |text| - |re|) == (text[|text| - |re|..] == re);
    assert (re + "$")[0] != '^';
  }

  lemma EndOccurs(text: string, i: nat)
    ensures Occurs([AtEnd], text, i) <==> i == |text|
  {
    if Occurs([AtEnd], text, i) {
      OccursFirst([AtEnd], text, i);
    }
    if i == |text| {
      NothingOccurs(text, i);
      assert [AtEnd][1..] == [];
      OccursCons([AtEnd], text, i, i);
    }
  }

  /** "^c*$" means that the text is nothing but c, or anything at all if c is '.'; for any character c. */
  lemma StarMeans(c: char, text: string)
    ensures Means(['^', c, '*', '$'], text) <==> c == '.' || forall k :: 0 <= k < |text| ==> text[k] == c
  {
    assert ['^', c, '*', '$'][1..] == [c, '*', '$'];
    var ps := Pieces([c, '*', '$']);
    assert [c, '*', '$'][2..] == "$" && Pieces("$") == [AtEnd];
    assert ps == [Star(c), AtEnd] && ps[1..] == [AtEnd];
    EndOccurs(text, |text|);
    if Occurs(ps, text, 0) {
      OccursFirst(ps, text, 0);
      var j :| Covers(ps[0], text, 0, j) && Occurs(ps[1..], text, j);
      EndOccurs(text, j);
    }
    if c == '.' || forall k :: 0 <= k < |text| ==> text[k] == c {
      OccursCons(ps, text, 0, |text|);
    }
  }

  /** "^.$" means one character, whichever. */
  lemma DotMeans(text: string)
    ensures Means("^.$", text) <==> |text| == 1
  {
    assert "^.$"[1..] == ".$" && ".$"[1..] == "$" && Pieces("$") == [AtEnd];
    var ps := Pieces(".$");
    assert ps == [One('.'), AtEnd] && ps[1..] == [AtEnd];
    EndOccurs(text, 1);
    if Occurs(ps, text, 0) {
      OccursFirst(ps, text, 0);
    }
    if |text| == 1 {
      OccursCons(ps, text, 0, 1);
    }
  }
}
