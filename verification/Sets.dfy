/** Sizes of finite sets. */
module Sets {

  lemma {:induction false} SubsetSize<T>(a: set<T>, b: set<T>)
    requires a <= b
    ensures |a| <= |b|
    decreases |a|
  {
    if a != {} {
      var x :| x in a;
      SubsetSize(a - {x}, b - {x});
    }
  }

  lemma UnionSize<T>(a: set<T>, b: set<T>, c: set<T>)
    requires a <= b + c
    ensures |a| <= |b| + |c|
  {
    SubsetSize(a, b + c);
    assert b + c == b + (c - b);
    SubsetSize(c - b, c);
  }

  /** A list without repetitions has as many elements as its set. */
  lemma {:induction false} ListSize<T>(s: seq<T>)
    requires forall i, j :: 0 <= i < j < |s| ==> s[i] != s[j]
    ensures |set x | x in s| == |s|
    decreases |s|
  {
    if s != [] {
      var n := |s| - 1;
      ListSize(s[..n]);
      assert (set x | x in s) == (set x | x in s[..n]) + {s[n]};
    }
  }
}
