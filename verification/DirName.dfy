/** Names in directory entries: 14 bytes, NUL-padded when shorter, compared by strncmp and stored by strncpy. */
module DirName {

  const DIRSIZ := 14
  const NUL := '\0'

  /** p can be scanned up to n bytes or its first NUL. */
  predicate Readable(p: seq<char>, n: nat) {
    n <= |p| || NUL in p
  }

  /** The first n bytes of p, cut at the first NUL: what a name of at most n bytes stands for. */
  function Key(p: seq<char>, n: nat): (r: seq<char>)
    ensures |r| <= n && |r| <= |p| && r == p[..|r|] && NUL !in r
    ensures Readable(p, n) && |r| < n ==> |r| < |p| && p[|r|] == NUL
  {
    if n == 0 || p == [] || p[0] == NUL then [] else
      var r := Key(p[1..], n - 1);
      assert p[..|r| + 1] == [p[0]] + p[1..][..|r|];
      [p[0]] + r
  }

  /** Key is the only sequence of that shape. */
  lemma {:induction false} KeyIs(p: seq<char>, n: nat, k: nat)
    requires k <= n && k <= |p| && NUL !in p[..k] && (k == n || (k < |p| && p[k] == NUL))
    ensures Key(p, n) == p[..k]
  {
    assert |Key(p, n)| == k;
  }

  /** strncmp: zero exactly when the two names are the same, else the difference at the first place they differ. */
  method Strncmp(p: seq<char>, q: seq<char>, n: nat) returns (r: int)
    requires Readable(p, n) && Readable(q, n)
    ensures r == 0 <==> Key(p, n) == Key(q, n)
    ensures r != 0 ==> exists i :: 0 <= i < n && i < |p| && i < |q| && p[..i] == q[..i] && r == p[i] as int - q[i] as int
  {
    var i := 0;
    while i < n && i < |p| && p[i] != NUL && i < |q| && p[i] == q[i]
      invariant 0 <= i <= n && i <= |p| && i <= |q| && p[..i] == q[..i] && NUL !in p[..i]
    {
      assert p[..i + 1] == p[..i] + [p[i]] && q[..i + 1] == q[..i] + [q[i]];
      i := i + 1;
    }
    Reached(p, n, i);
    Reached(q, n, i);
    if i == n {
      KeyIs(p, n, i);
      KeyIs(q, n, i);
      return 0;
    }
    r := p[i] as int - q[i] as int;
    if p[i] == q[i] {
      KeyIs(p, n, i);
      KeyIs(q, n, i);
    } else {
      KeysDiffer(p, q, n, i);
    }
  }

  lemma Reached(p: seq<char>, n: nat, i: nat)
    requires Readable(p, n) && i <= n && i <= |p| && NUL !in p[..i]
    ensures i == n || i < |p|
  {
    assert i == |p| ==> p[..i] == p;
  }

  lemma KeysDiffer(p: seq<char>, q: seq<char>, n: nat, i: nat)
    requires i < n && i < |p| && i < |q| && p[..i] == q[..i] && NUL !in p[..i] && p[i] != q[i]
    requires Readable(p, n) && Readable(q, n)
    ensures Key(p, n) != Key(q, n)
  {
    var a, b := Key(p, n), Key(q, n);
    assert i < |a| && i < |b| ==> a[i] != b[i];
  }

  /** strncpy into a field of n bytes: the name, then NULs to the end of the field. */
  method Strncpy(s: array<char>, t: seq<char>, n: nat)
    requires n <= s.Length && Readable(t, n)
    modifies s
    ensures Key(s[..n], n) == Key(t, n)
    ensures forall i :: |Key(t, n)| <= i < n ==> s[i] == NUL
    ensures s[n..] == old(s[n..])
  {
    var i := 0;
    while i < n && (i == 0 || s[i - 1] != NUL)
      invariant 0 <= i <= n
      invariant s[n..] == old(s[n..])
      invariant forall j :: 0 <= j < i ==> j < |t| && s[j] == t[j]
      invariant forall j :: 0 <= j < i - 1 ==> s[j] != NUL
    {
      assert NUL !in t[..i];
      Reached(t, n, i);
      s[i] := t[i];
      i := i + 1;
    }
    ghost var k := if i > 0 && s[i - 1] == NUL then i - 1 else i;
    assert t[..k] == s[..k];
    KeyIs(t, n, k);
    while i < n
      invariant k <= i <= n && (k < n ==> k < i && s[k] == NUL)
      invariant s[n..] == old(s[n..]) && s[..k] == t[..k]
      invariant forall j :: k <= j < i ==> s[j] == NUL
    {
      s[i] := NUL;
      i := i + 1;
    }
    assert s[..n][..k] == t[..k];
    KeyIs(s[..n], n, k);
  }

  /** namecmp on two name fields: zero exactly when they stand for the same name. */
  method Namecmp(s: seq<char>, t: seq<char>) returns (r: int)
    requires Readable(s, DIRSIZ) && Readable(t, DIRSIZ)
    ensures r == 0 <==> Key(s, 14) == Key(t, 14)
  {
    r := Strncmp(s, t, DIRSIZ);
  }

  /** What dirlink stores for a name is found under exactly the names that agree with it in their first 14 bytes. */
  method StoreAndCompare(field: array<char>, name: seq<char>, other: seq<char>) returns (r: int)
    requires field.Length == DIRSIZ && Readable(name, DIRSIZ) && Readable(other, DIRSIZ)
    modifies field
    ensures r == 0 <==> Key(name, 14) == Key(other, 14)
  {
    Strncpy(field, name, DIRSIZ);
    assert field[..DIRSIZ] == field[..];
    r := Namecmp(other, field[..]);
  }
}
