/**
 The K&R allocator of umalloc.c as values. Addresses count header-sized units. `chain` lists the free
 blocks in address order starting with `base`; `own` says for every unit obtained from sbrk which block
 contains it.
 */
module KrHeap {
  import opened Sequences

  datatype Header = Header(ptr: int, size: nat)

  datatype Heap = Heap(base: int, hdr: map<int, Header>, freep: int, chain: seq<int>, live: map<int, nat>, own: map<int, int>)

  predicate In(u: int, a: int, n: int) {
    a <= u < a + n
  }

  /** Successor index on the ring. */
  function Next(i: nat, n: nat): nat {
    if i + 1 < n then i + 1 else 0
  }

  predicate IsBlock(h: Heap, a: int) {
    a in h.chain || a in h.live
  }

  function Size(h: Heap, a: int): nat
    requires a in h.hdr
  {
    h.hdr[a].size
  }

  /** The header of list element `i` points at the next element. */
  predicate Points(h: Heap, i: nat) {
    i < |h.chain| && h.chain[i] in h.hdr && h.hdr[h.chain[i]].ptr == h.chain[Next(i, |h.chain|)]
  }

  /** The free list is circular and in address order with one wrap, at `base`. */
  predicate Ring(h: Heap) {
    && |h.chain| >= 1 && h.chain[0] == h.base
    && Sorted(h.chain)
    && (forall i :: 0 <= i < |h.chain| ==> Points(h, i))
    && h.freep in h.chain
  }

  predicate Sizes(h: Heap)
    requires Ring(h)
  {
    && h.base in h.hdr && Size(h, h.base) == 0
    && (forall i :: 1 <= i < |h.chain| ==> h.chain[i] in h.hdr && Size(h, h.chain[i]) >= 1)
    && (forall a :: a in h.live ==> a in h.hdr && Size(h, a) == h.live[a] >= 1 && a > h.base && a !in h.chain)
  }

  /** Every unit from sbrk is in exactly the block `own` says, and blocks hold nothing else. */
  ghost predicate Tiled(h: Heap) {
    && (forall a :: IsBlock(h, a) ==> a in h.hdr)
    && (forall a, u :: IsBlock(h, a) && In(u, a, Size(h, a)) ==> u in h.own && h.own[u] == a)
    && (forall u :: u in h.own ==> IsBlock(h, h.own[u]) && In(u, h.own[u], Size(h, h.own[u])))
  }

  /** No free block touches the next one. */
  predicate Gap(h: Heap, i: nat) {
    i + 1 < |h.chain| && h.chain[i] in h.hdr && h.chain[i] + Size(h, h.chain[i]) < h.chain[i + 1]
  }

  ghost predicate Loose(h: Heap) {
    Ring(h) && Sizes(h) && Tiled(h)
  }

  /** What malloc and free keep. */
  ghost predicate Inv(h: Heap) {
    Loose(h) && forall i :: 0 <= i && i + 1 < |h.chain| ==> Gap(h, i)
  }

  // ---------------------------------------------------------------- sorted sequences

  predicate Sorted(s: seq<int>) {
    forall i, j :: 0 <= i < j < |s| ==> s[i] < s[j]
  }

  function Insert(s: seq<int>, i: nat, b: int): (r: seq<int>)
    requires i < |s|
    ensures |r| == |s| + 1
  {
    seq(|s| + 1, k requires 0 <= k <= |s| => if k <= i then s[k] else if k == i + 1 then b else s[k - 1])
  }

  lemma InsertMembers(s: seq<int>, i: nat, b: int)
    requires i < |s|
    ensures forall a :: a in Insert(s, i, b) <==> a == b || a in s
  {
    var r := Insert(s, i, b);
    assert r[i + 1] == b;
    forall a | a in s ensures a in r {
      var k :| 0 <= k < |s| && s[k] == a;
      assert r[if k <= i then k else k + 1] == a;
    }
  }

  lemma RemoveMembers(s: seq<int>, i: nat)
    requires i < |s| && Sorted(s)
    ensures forall a :: a in Remove(s, i) <==> a != s[i] && a in s
  {
    var r := Remove(s, i);
    forall a | a in s && a != s[i] ensures a in r {
      var k :| 0 <= k < |s| && s[k] == a;
      assert r[if k < i then k else k - 1] == a;
    }
  }

  /** `i` is where `b` belongs in address order. */
  predicate Slot(s: seq<int>, i: nat, b: int) {
    i < |s| && s[i] < b && (i + 1 < |s| ==> b < s[i + 1])
  }

  lemma InsertSorted(s: seq<int>, i: nat, b: int)
    requires Sorted(s) && Slot(s, i, b)
    ensures Sorted(Insert(s, i, b))
  {
  }

  lemma RemoveSorted(s: seq<int>, i: nat)
    requires Sorted(s) && i < |s|
    ensures Sorted(Remove(s, i))
  {
  }

  // ---------------------------------------------------------------- linking a block into the list

  /** Block `b` of the live blocks goes into the list after index `i`. */
  function Link(h: Heap, i: nat, b: int): Heap
    requires Points(h, i) && b in h.hdr
  {
    var p := h.chain[i];
    h.(hdr := h.hdr[b := Header(h.hdr[p].ptr, h.hdr[b].size)][p := Header(b, h.hdr[p].size)],
       freep := p,
       chain := Insert(h.chain, i, b),
       live := h.live - {b})
  }

  lemma LinkPtr(h: Heap, i: nat, b: int, k: nat)
    requires Ring(h) && b in h.hdr && b !in h.chain && Slot(h.chain, i, b) && k <= |h.chain|
    ensures Points(Link(h, i, b), k)
  {
    var t := Link(h, i, b);
    var n := |h.chain|;
    var p := h.chain[i];
    var q := h.hdr[p].ptr;
    assert q == h.chain[Next(i, n)] by { assert Points(h, i); }
    if k == i {
      assert t.hdr[p].ptr == b && t.chain[i] == p && t.chain[i + 1] == b;
    } else if k == i + 1 {
      assert t.hdr[b].ptr == q && t.chain[i + 1] == b;
    } else {
      var k0 := if k < i then k else k - 1;
      var a := h.chain[k0];
      assert t.chain[k] == a && a != p && a != b;
      assert Points(h, k0);
    }
  }

  lemma LinkRing(h: Heap, i: nat, b: int)
    requires Ring(h) && b in h.hdr && b !in h.chain && Slot(h.chain, i, b)
    ensures Ring(Link(h, i, b))
  {
    var t := Link(h, i, b);
    InsertSorted(h.chain, i, b);
    forall k | 0 <= k < |t.chain| ensures Points(t, k) {
      LinkPtr(h, i, b, k);
    }
    assert t.chain[i] == h.chain[i];
  }

  lemma LinkSizes(h: Heap, i: nat, b: int)
    requires Ring(h) && Sizes(h) && b in h.live && Slot(h.chain, i, b) && Ring(Link(h, i, b))
    ensures Sizes(Link(h, i, b))
  {
    var t := Link(h, i, b);
    InsertMembers(h.chain, i, b);
    assert forall a :: a in h.hdr ==> a in t.hdr && Size(t, a) == Size(h, a);
  }

  lemma SameBlocksTiled(h: Heap, t: Heap)
    requires Tiled(h) && t.own == h.own
    requires forall a :: IsBlock(t, a) <==> IsBlock(h, a)
    requires forall a :: a in h.hdr ==> a in t.hdr && Size(t, a) == Size(h, a)
    ensures Tiled(t)
  {
  }

  lemma LinkLoose(h: Heap, i: nat, b: int)
    requires Loose(h) && b in h.live && Slot(h.chain, i, b)
    ensures Points(h, i) && Loose(Link(h, i, b))
  {
    var t := Link(h, i, b);
    LinkRing(h, i, b);
    LinkSizes(h, i, b);
    InsertMembers(h.chain, i, b);
    hide Ring, Sizes, Insert, Tiled, Points;
    SameBlocksTiled(h, t);
  }

  // ---------------------------------------------------------------- coalescing

  predicate Adjacent(h: Heap, i: nat) {
    i + 1 < |h.chain| && Points(h, i) && Points(h, i + 1) && h.chain[i] + Size(h, h.chain[i]) == h.chain[i + 1]
  }

  /** Free block `i` swallows the free block right behind it. */
  function Absorb(h: Heap, i: nat): Heap
    requires Adjacent(h, i)
  {
    var a, b := h.chain[i], h.chain[i + 1];
    h.(hdr := h.hdr[a := Header(h.hdr[b].ptr, h.hdr[a].size + h.hdr[b].size)],
       chain := Remove(h.chain, i + 1),
       own := map u | u in h.own :: if h.own[u] == b then a else h.own[u])
  }

  lemma AbsorbPtr(h: Heap, i: nat, k: nat)
    requires Ring(h) && Adjacent(h, i) && k + 1 < |h.chain|
    ensures Points(Absorb(h, i), k)
  {
    var t := Absorb(h, i);
    var n := |h.chain|;
    if k == i {
      assert Points(h, i + 1);
    } else {
      var k0 := if k < i then k else k + 1;
      assert t.chain[k] == h.chain[k0] && h.chain[k0] != h.chain[i];
      assert Points(h, k0);
    }
  }

  lemma AbsorbRing(h: Heap, i: nat)
    requires Ring(h) && Adjacent(h, i) && h.freep != h.chain[i + 1]
    ensures Ring(Absorb(h, i))
  {
    var t := Absorb(h, i);
    RemoveSorted(h.chain, i + 1);
    RemoveMembers(h.chain, i + 1);
    forall k | 0 <= k < |t.chain| ensures Points(t, k) {
      AbsorbPtr(h, i, k);
    }
  }

  /** Free blocks keep their sizes when the list only loses members and no listed block shrinks. */
  lemma SizesCarry(h: Heap, t: Heap)
    requires Ring(h) && Sizes(h) && Ring(t) && t.base == h.base
    requires forall a :: a in t.chain ==> a in h.chain
    requires forall a :: a in t.chain ==> a in t.hdr && a in h.hdr && Size(t, a) >= Size(h, a) && (a == t.base ==> Size(t, a) == 0)
    requires forall a :: a in t.live ==> a in t.hdr && Size(t, a) == t.live[a] >= 1 && a > t.base && a !in t.chain
    ensures Sizes(t)
  {
    hide Points;
    assert t.chain[0] in t.chain;
    forall j | 1 <= j < |t.chain| ensures t.chain[j] in t.hdr && Size(t, t.chain[j]) >= 1 {
      assert t.chain[j] in t.chain && t.chain[0] < t.chain[j];
      var i :| 0 <= i < |h.chain| && h.chain[i] == t.chain[j];
      assert Size(h, h.chain[i]) >= 1;
    }
  }

  lemma AbsorbSizes(h: Heap, i: nat)
    requires Ring(h) && Sizes(h) && Adjacent(h, i) && Ring(Absorb(h, i))
    ensures Sizes(Absorb(h, i))
  {
    hide Remove, Points;
    var t := Absorb(h, i);
    RemoveMembers(h.chain, i + 1);
    assert h.chain[i] in h.chain;
    ListedSizes(h);
    SizesCarry(h, t);
  }

  lemma ListedSizes(h: Heap)
    requires Ring(h) && Sizes(h)
    ensures forall a :: a in h.chain ==> a in h.hdr && Size(h, a) >= 0
  {
    hide Points;
    forall a | a in h.chain ensures a in h.hdr && Size(h, a) >= 0 {
      var i :| 0 <= i < |h.chain| && h.chain[i] == a;
    }
  }

  /** Two touching blocks become one. */
  lemma JoinTiled(h: Heap, t: Heap, a: int, b: int)
    requires Tiled(h) && IsBlock(h, a) && IsBlock(h, b) && a != b && b == a + Size(h, a)
    requires forall x :: IsBlock(t, x) <==> IsBlock(h, x) && x != b
    requires forall x :: x in h.hdr ==> x in t.hdr && Size(t, x) == if x == a then Size(h, a) + Size(h, b) else Size(h, x)
    requires t.own == map u | u in h.own :: if h.own[u] == b then a else h.own[u]
    ensures Tiled(t)
  {
    hide IsBlock;
    forall x, u | IsBlock(t, x) && In(u, x, Size(t, x)) ensures u in t.own && t.own[u] == x {
      if x == a {
        assert In(u, a, Size(h, a)) || In(u, b, Size(h, b));
      } else {
        assert In(u, x, Size(h, x));
      }
    }
  }

  lemma AbsorbTiled(h: Heap, i: nat)
    requires Ring(h) && Sizes(h) && Tiled(h) && Adjacent(h, i)
    ensures Tiled(Absorb(h, i))
  {
    hide Remove, Tiled;
    var a, b := h.chain[i], h.chain[i + 1];
    RemoveMembers(h.chain, i + 1);
    Neighbours(h, i);
    hide Ring, Sizes;
    JoinTiled(h, Absorb(h, i), a, b);
  }

  lemma Neighbours(h: Heap, i: nat)
    requires Ring(h) && Sizes(h) && i + 1 < |h.chain|
    ensures var a, b := h.chain[i], h.chain[i + 1];
            a in h.chain && b in h.chain && b !in h.live && a < b
  {
    hide Points;
  }

  lemma AbsorbLoose(h: Heap, i: nat)
    requires Loose(h) && Adjacent(h, i) && h.freep != h.chain[i + 1]
    ensures Loose(Absorb(h, i))
  {
    AbsorbRing(h, i);
    AbsorbSizes(h, i);
    AbsorbTiled(h, i);
  }

  lemma TiledAt(h: Heap, a: int, u: int)
    requires Tiled(h) && IsBlock(h, a) && a in h.hdr && a <= u < a + Size(h, a)
    ensures u in h.own && h.own[u] == a
  {
    assert In(u, a, Size(h, a));
  }

  /** Neighbouring free blocks do not overlap. */
  lemma NoOverlap(h: Heap, i: nat)
    requires Loose(h) && i + 1 < |h.chain|
    ensures Points(h, i) && h.chain[i] + Size(h, h.chain[i]) <= h.chain[i + 1]
  {
    var a, b := h.chain[i], h.chain[i + 1];
    assert a < b && IsBlock(h, a) && IsBlock(h, b);
    assert Size(h, b) >= 1;
    TiledAt(h, b, b);
    if a + Size(h, a) > b {
      TiledAt(h, a, b);
      assert false;
    }
  }

  /** All gaps but those at lo..hi are real. */
  predicate GapsBut(h: Heap, lo: nat, hi: nat) {
    forall k :: 0 <= k && k + 1 < |h.chain| && !(lo <= k < hi) ==> Gap(h, k)
  }

  lemma LinkGaps(h: Heap, i: nat, b: int)
    requires Inv(h) && b in h.live && Slot(h.chain, i, b)
    ensures Points(h, i) && GapsBut(Link(h, i, b), i, i + 2)
  {
    var t := Link(h, i, b);
    forall k | 0 <= k && k + 1 < |t.chain| && !(i <= k < i + 2) ensures Gap(t, k) {
      assert Gap(h, if k < i then k else k - 1);
    }
  }

  /** Swallow the next block if it touches this one. */
  function Merge(h: Heap, i: nat): Heap {
    if Adjacent(h, i) then Absorb(h, i) else h
  }

  lemma AbsorbGaps(h: Heap, i: nat, lo: nat)
    requires Adjacent(h, i) && Sorted(h.chain) && lo <= i && GapsBut(h, lo, i + 1)
    ensures GapsBut(Absorb(h, i), lo, i)
  {
    var t := Absorb(h, i);
    forall k | 0 <= k && k + 1 < |t.chain| && !(lo <= k < i) ensures Gap(t, k) {
      if k < i {
        assert Gap(h, k);
      } else {
        assert Gap(h, k + 1);
      }
    }
  }

  lemma MergeKeeps(h: Heap, i: nat, lo: nat)
    requires Loose(h) && i < |h.chain| && lo <= i && GapsBut(h, lo, i + 1)
    requires i + 1 < |h.chain| ==> h.freep != h.chain[i + 1]
    ensures Loose(Merge(h, i)) && GapsBut(Merge(h, i), lo, i) && i < |Merge(h, i).chain|
    ensures forall k :: 0 <= k <= i ==> Merge(h, i).chain[k] == h.chain[k]
  {
    hide Tiled, Sizes;
    if Adjacent(h, i) {
      AbsorbLoose(h, i);
      AbsorbGaps(h, i, lo);
    } else if i + 1 < |h.chain| {
      NoOverlap(h, i);
      assert Points(h, i + 1);
      assert Gap(h, i);
    }
  }

  /** free: link the block and coalesce it with its upper, then its lower neighbour. */
  function Freed(h: Heap, i: nat, b: int): Heap
    requires Points(h, i) && b in h.hdr
  {
    Merge(Merge(Link(h, i, b), i + 1), i)
  }

  lemma InvIsLoose(h: Heap, b: int)
    requires Inv(h) && b in h.live
    ensures Loose(h) && b in h.hdr
  {
  }

  lemma FreedInv(h: Heap, i: nat, b: int)
    requires Inv(h) && b in h.live && Slot(h.chain, i, b)
    ensures Points(h, i) && b in h.hdr && Inv(Freed(h, i, b))
  {
    hide Inv, Loose, Points, Slot, GapsBut, Adjacent, Link, Merge;
    InvIsLoose(h, b);
    LinkLoose(h, i, b);
    LinkGaps(h, i, b);
    var t := Link(h, i, b);
    LinkFreep(h, i, b);
    MergeKeeps(t, i + 1, i);
    var u := Merge(t, i + 1);
    MergeFreep(t, i, i + 1);
    MergeKeeps(u, i, i);
    NoGapsLeft(Merge(u, i), i);
  }

  lemma FreedBooks(h: Heap, i: nat, b: int)
    requires Points(h, i) && b in h.hdr
    ensures var t := Freed(h, i, b); t.live == h.live - {b} && t.own.Keys == h.own.Keys && t.base == h.base
  {
    hide Adjacent, Points, Insert, Remove;
    var t := Link(h, i, b);
    MergeBooks(t, i + 1);
    MergeBooks(Merge(t, i + 1), i);
  }

  lemma MergeBooks(h: Heap, i: nat)
    ensures var t := Merge(h, i); t.live == h.live && t.own.Keys == h.own.Keys && t.base == h.base && t.freep == h.freep
  {
  }

  lemma LinkFreep(h: Heap, i: nat, b: int)
    requires Loose(h) && b in h.live && Slot(h.chain, i, b) && Points(h, i) && Loose(Link(h, i, b))
    ensures var t := Link(h, i, b);
            i + 1 < |t.chain| && t.freep == t.chain[i] && (forall k :: 0 <= k < |t.chain| && k != i ==> t.chain[k] != t.freep)
  {
  }

  lemma MergeFreep(t: Heap, i: nat, j: nat)
    requires Loose(t) && i < j < |t.chain| && t.freep == t.chain[i] && Loose(Merge(t, j)) && i < |Merge(t, j).chain|
    requires Merge(t, j).chain[i] == t.chain[i]
    ensures Merge(t, j).freep == Merge(t, j).chain[i]
    ensures i + 1 < |Merge(t, j).chain| ==> Merge(t, j).freep != Merge(t, j).chain[i + 1]
  {
  }

  lemma NoGapsLeft(h: Heap, i: nat)
    requires Loose(h) && GapsBut(h, i, i)
    ensures Inv(h)
  {
  }

  // ---------------------------------------------------------------- taking a block for malloc

  /** The whole free block `k` becomes live. */
  function TakeWhole(h: Heap, k: nat): Heap
    requires 1 <= k && Points(h, k) && Points(h, k - 1)
  {
    var p, q := h.chain[k], h.chain[k - 1];
    h.(hdr := h.hdr[q := Header(h.hdr[p].ptr, h.hdr[q].size)],
       freep := q,
       chain := Remove(h.chain, k),
       live := h.live[p := h.hdr[p].size])
  }

  /** The last `n` units of free block `k` become live. */
  function TakeTail(h: Heap, k: nat, n: nat): Heap
    requires 1 <= k && Points(h, k) && Points(h, k - 1) && Size(h, h.chain[k]) > n
  {
    var p := h.chain[k];
    var left := h.hdr[p].size - n;
    var a := p + left;
    h.(hdr := h.hdr[p := Header(h.hdr[p].ptr, left)][a := Header(0, n)],
       freep := h.chain[k - 1],
       live := h.live[a := n],
       own := map u | u in h.own :: if In(u, a, n) then a else h.own[u])
  }

  lemma TakeWholePtr(h: Heap, k: nat, j: nat)
    requires Ring(h) && 1 <= k < |h.chain| && j + 1 < |h.chain|
    ensures Points(h, k) && Points(h, k - 1) && Points(TakeWhole(h, k), j)
  {
    assert Points(h, k) && Points(h, k - 1);
    var t := TakeWhole(h, k);
    if j != k - 1 {
      var j0 := if j < k then j else j + 1;
      assert t.chain[j] == h.chain[j0] && h.chain[j0] != h.chain[k - 1];
      assert Points(h, j0);
    }
  }

  lemma TakeWholeRing(h: Heap, k: nat)
    requires Ring(h) && 1 <= k < |h.chain|
    ensures Points(h, k) && Points(h, k - 1) && Ring(TakeWhole(h, k))
  {
    assert Points(h, k) && Points(h, k - 1);
    var t := TakeWhole(h, k);
    RemoveSorted(h.chain, k);
    RemoveMembers(h.chain, k);
    forall j | 0 <= j < |t.chain| ensures Points(t, j) {
      TakeWholePtr(h, k, j);
    }
    assert h.chain[k - 1] in h.chain && h.chain[k - 1] != h.chain[k];
  }

  lemma TakeWholeSizes(h: Heap, k: nat)
    requires Ring(h) && Sizes(h) && 1 <= k < |h.chain| && Points(h, k) && Points(h, k - 1) && Ring(TakeWhole(h, k))
    ensures Sizes(TakeWhole(h, k))
  {
    hide Remove;
    var t := TakeWhole(h, k);
    RemoveMembers(h.chain, k);
    assert forall a :: a in h.hdr ==> a in t.hdr && Size(t, a) == Size(h, a);
    assert h.chain[0] < h.chain[k];
    ListedSizes(h);
    SizesCarry(h, t);
  }

  lemma TakeWholeInv(h: Heap, k: nat)
    requires Inv(h) && 1 <= k < |h.chain|
    ensures Points(h, k) && Points(h, k - 1) && Inv(TakeWhole(h, k))
  {
    TakeWholeRing(h, k);
    TakeWholeSizes(h, k);
    var t := TakeWhole(h, k);
    TakeWholeTiled(h, k);
    TakeWholeGaps(h, k);
  }

  lemma TakeWholeTiled(h: Heap, k: nat)
    requires Loose(h) && 1 <= k < |h.chain| && Points(h, k) && Points(h, k - 1)
    ensures Tiled(TakeWhole(h, k))
  {
    var t := TakeWhole(h, k);
    RemoveMembers(h.chain, k);
    assert h.chain[k] in h.chain;
    hide Ring, Sizes, Tiled, Remove, Points;
    SameBlocksTiled(h, t);
  }

  lemma TakeWholeGap(h: Heap, k: nat, j: nat)
    requires Inv(h) && 1 <= k < |h.chain| && Points(h, k) && Points(h, k - 1) && j + 1 < |TakeWhole(h, k).chain|
    ensures Gap(TakeWhole(h, k), j)
  {
    hide Tiled, Sizes;
    if j < k - 1 {
      assert Gap(h, j);
    } else if j == k - 1 {
      assert Gap(h, k - 1) && h.chain[k] < h.chain[k + 1];
    } else {
      assert Gap(h, j + 1);
    }
  }

  lemma TakeWholeGaps(h: Heap, k: nat)
    requires Inv(h) && 1 <= k < |h.chain| && Points(h, k) && Points(h, k - 1)
    ensures forall j :: 0 <= j && j + 1 < |TakeWhole(h, k).chain| ==> Gap(TakeWhole(h, k), j)
  {
    hide Tiled, Sizes, Gap;
    var t := TakeWhole(h, k);
    forall j | 0 <= j && j + 1 < |t.chain| ensures Gap(t, j) {
      TakeWholeGap(h, k, j);
    }
  }

  /** A block is cut in two. */
  lemma SplitTiled(h: Heap, t: Heap, p: int, n: nat)
    requires Tiled(h) && IsBlock(h, p) && 0 < n < Size(h, p)
    requires var a := p + (Size(h, p) - n);
             && (forall x :: IsBlock(t, x) <==> IsBlock(h, x) || x == a) && !IsBlock(h, a)
             && a in t.hdr && Size(t, a) == n && p in t.hdr && Size(t, p) == Size(h, p) - n
             && (forall x :: x in h.hdr && x != p && x != a ==> x in t.hdr && Size(t, x) == Size(h, x))
             && t.own == map u | u in h.own :: if In(u, a, n) then a else h.own[u]
    ensures Tiled(t)
  {
    hide IsBlock;
    var a := p + (Size(h, p) - n);
    forall u | In(u, a, n) ensures u in h.own && h.own[u] == p {
      assert In(u, p, Size(h, p));
    }
    forall x, u | IsBlock(t, x) && In(u, x, Size(t, x)) ensures u in t.own && t.own[u] == x {
      if x != a {
        assert In(u, x, Size(h, x));
      }
    }
  }

  lemma BlockPositive(h: Heap, a: int)
    requires Loose(h) && IsBlock(h, a) && a != h.base
    ensures a in h.hdr && Size(h, a) >= 1
  {
    if a in h.chain {
      var j :| 0 <= j < |h.chain| && h.chain[j] == a;
    }
  }

  /** No block starts inside another one. */
  lemma InsideIsNoBlock(h: Heap, p: int, a: int)
    requires Loose(h) && IsBlock(h, p) && p in h.hdr && p < a < p + Size(h, p)
    ensures !IsBlock(h, a)
  {
    TiledAt(h, p, a);
    BaseIsLeast(h, p);
    if IsBlock(h, a) {
      BlockPositive(h, a);
      TiledAt(h, a, a);
      assert false;
    }
  }

  lemma BaseIsLeast(h: Heap, p: int)
    requires Loose(h) && IsBlock(h, p)
    ensures h.base <= p
  {
    if p in h.chain {
      var j :| 0 <= j < |h.chain| && h.chain[j] == p;
    }
  }

  lemma TakeTailRing(h: Heap, k: nat, n: nat)
    requires Ring(h) && 1 <= k < |h.chain| && Points(h, k) && Points(h, k - 1) && 0 < n < Size(h, h.chain[k])
    requires h.chain[k] + (Size(h, h.chain[k]) - n) !in h.chain
    ensures Ring(TakeTail(h, k, n))
  {
    var t := TakeTail(h, k, n);
    forall j | 0 <= j < |t.chain| ensures Points(t, j) {
      assert Points(h, j);
    }
  }

  lemma TakeTailSizes(h: Heap, k: nat, n: nat)
    requires Ring(h) && Sizes(h) && 1 <= k < |h.chain| && Points(h, k) && Points(h, k - 1) && 0 < n < Size(h, h.chain[k])
    requires !IsBlock(h, h.chain[k] + (Size(h, h.chain[k]) - n)) && Ring(TakeTail(h, k, n))
    ensures Sizes(TakeTail(h, k, n))
  {
    assert h.chain[0] < h.chain[k] && h.chain[k] in h.chain && h.chain[0] in h.chain;
  }

  lemma TakeTailGaps(h: Heap, k: nat, n: nat)
    requires Inv(h) && 1 <= k < |h.chain| && Points(h, k) && Points(h, k - 1) && 0 < n < Size(h, h.chain[k])
    requires h.chain[k] + (Size(h, h.chain[k]) - n) !in h.chain
    ensures forall j :: 0 <= j && j + 1 < |h.chain| ==> Gap(TakeTail(h, k, n), j)
  {
    hide Tiled, Sizes;
    forall j | 0 <= j && j + 1 < |h.chain| ensures Gap(TakeTail(h, k, n), j) {
      assert Gap(h, j);
    }
  }

  lemma TakeTailTiled(h: Heap, k: nat, n: nat)
    requires Tiled(h) && 1 <= k && Points(h, k) && Points(h, k - 1) && 0 < n < Size(h, h.chain[k])
    requires !IsBlock(h, h.chain[k] + (Size(h, h.chain[k]) - n))
    ensures Tiled(TakeTail(h, k, n))
  {
    var p := h.chain[k];
    assert IsBlock(h, p);
    hide Tiled, Points;
    SplitTiled(h, TakeTail(h, k, n), p, n);
  }

  lemma TakeTailInv(h: Heap, k: nat, n: nat)
    requires Inv(h) && 1 <= k < |h.chain| && Points(h, k) && Points(h, k - 1) && 0 < n < Size(h, h.chain[k])
    ensures Inv(TakeTail(h, k, n))
    ensures h.chain[k] + (Size(h, h.chain[k]) - n) !in h.live
  {
    var p := h.chain[k];
    assert IsBlock(h, p);
    hide Ring, Sizes, Tiled, Gap;
    InsideIsNoBlock(h, p, p + (Size(h, p) - n));
    TakeTailRing(h, k, n);
    TakeTailSizes(h, k, n);
    TakeTailGaps(h, k, n);
    TakeTailTiled(h, k, n);
  }

  // ---------------------------------------------------------------- a chunk from sbrk

  /** A chunk of `nu` units at `c`, seen as one live block until morecore frees it. */
  function Chunk(h: Heap, c: int, nu: nat): Heap {
    h.(hdr := h.hdr[c := Header(0, nu)],
       live := h.live[c := nu],
       own := h.own + map u | c <= u < c + nu && In(u, c, nu) :: c)
  }

  /** sbrk hands out memory above everything handed out before. */
  predicate Above(h: Heap, c: int) {
    h.base < c && forall u :: u in h.own ==> u < c
  }

  lemma AboveIsNoBlock(h: Heap, c: int)
    requires Loose(h) && Above(h, c)
    ensures forall a :: IsBlock(h, a) ==> a < c
  {
    forall a | IsBlock(h, a) ensures a < c {
      if a in h.chain {
        var j :| 0 <= j < |h.chain| && h.chain[j] == a;
        if j > 0 {
          TiledAt(h, a, a);
        }
      } else {
        TiledAt(h, a, a);
      }
    }
  }

  lemma ChunkTiled(h: Heap, c: int, nu: nat)
    requires Tiled(h) && Above(h, c) && (forall a :: IsBlock(h, a) ==> a < c) && nu > 0
    ensures Tiled(Chunk(h, c, nu))
  {
    var t := Chunk(h, c, nu);
    assert forall a :: IsBlock(t, a) <==> IsBlock(h, a) || a == c;
    hide IsBlock;
    forall x, u | IsBlock(t, x) && In(u, x, Size(t, x)) ensures u in t.own && t.own[u] == x {
      if x != c {
        assert In(u, x, Size(h, x));
      }
    }
    forall u | u in t.own ensures IsBlock(t, t.own[u]) && In(u, t.own[u], Size(t, t.own[u])) {
      if u !in h.own || c <= u < c + nu {
        assert In(u, c, nu);
      }
    }
  }

  lemma ChunkInv(h: Heap, c: int, nu: nat)
    requires Inv(h) && Above(h, c) && nu > 0
    ensures Inv(Chunk(h, c, nu)) && c !in h.live
    ensures Chunk(h, c, nu).own.Keys == h.own.Keys + (set u | c <= u < c + nu && In(u, c, nu))
  {
    var t := Chunk(h, c, nu);
    AboveIsNoBlock(h, c);
    ChunkTiled(h, c, nu);
    forall a | a in h.chain ensures a < c { assert IsBlock(h, a); }
    forall a | a in h.live ensures a < c { assert IsBlock(h, a); }
    ChunkRing(h, c, nu);
    hide Tiled;
    forall i | 0 <= i && i + 1 < |t.chain| ensures Gap(t, i) {
      assert Gap(h, i);
    }
  }

  lemma ChunkRing(h: Heap, c: int, nu: nat)
    requires Ring(h) && Sizes(h) && nu > 0 && h.base < c && (forall a :: a in h.chain ==> a < c) && (forall a :: a in h.live ==> a < c)
    ensures Ring(Chunk(h, c, nu)) && Sizes(Chunk(h, c, nu))
  {
    var t := Chunk(h, c, nu);
    forall i | 0 <= i < |t.chain| ensures Points(t, i) {
      assert Points(h, i) && h.chain[i] in h.chain;
    }
  }
}
