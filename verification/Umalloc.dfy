/**
 umalloc.c as an object: the headers in memory and `freep`, changed in place by free, morecore and malloc.
 */
module Umalloc {
  import opened KrHeap
  import opened Sequences

  /** What sbrk would answer if called: the start of the new memory in units, as much as was asked for, or failure. */
  datatype Sbrk = NoCore | Core(c: int)

  /** There is exactly one place in the list for an address above `base`. */
  lemma {:induction false} SlotExists(s: seq<int>, b: int, n: nat) returns (i: nat)
    requires Sorted(s) && 0 < n <= |s| && s[0] < b && b !in s && (n < |s| ==> b < s[n])
    ensures Slot(s, i, b)
    decreases n
  {
    if s[n - 1] < b {
      i := n - 1;
    } else {
      i := SlotExists(s, b, n - 1);
    }
  }

  /** Steps along the ring from index `k` to index `j`. */
  function Distance(k: nat, j: nat, n: nat): int {
    if k <= j then j - k else n - k + j
  }

  predicate FitAt(h: Heap, nunits: nat, j: nat) {
    j < |h.chain| && h.chain[j] in h.hdr && Size(h, h.chain[j]) >= nunits
  }

  /** Some free block is large enough. */
  predicate Fits(h: Heap, nunits: nat) {
    exists j :: 0 <= j < |h.chain| && FitAt(h, nunits, j)
  }

  // ---------------------------------------------------------------- the header writes of free

  /** free's first decision: link, or join with the upper neighbour. */
  function UpperWrite(hdr: map<int, Header>, p: int, b: int): map<int, Header>
    requires p in hdr && b in hdr && hdr[p].ptr in hdr
  {
    var q := hdr[p].ptr;
    if b + hdr[b].size == q then hdr[b := Header(hdr[q].ptr, hdr[b].size + hdr[q].size)] else hdr[b := Header(q, hdr[b].size)]
  }

  /** free's second decision: link, or join with the lower neighbour. */
  function LowerWrite(hdr: map<int, Header>, p: int, b: int): map<int, Header>
    requires p in hdr && b in hdr
  {
    if p + hdr[p].size == b then hdr[p := Header(hdr[b].ptr, hdr[p].size + hdr[b].size)] else hdr[p := Header(b, hdr[p].size)]
  }

  lemma UpperIsMerge(h: Heap, i: nat, b: int)
    requires Ring(h) && Slot(h.chain, i, b) && Points(h, i) && b in h.hdr && b !in h.chain && Ring(Link(h, i, b))
    ensures var p := h.chain[i]; var m := Merge(Link(h, i, b), i + 1);
            && p != b && h.hdr[p].ptr in h.hdr
            && m.hdr == UpperWrite(h.hdr, p, b)[p := Header(b, h.hdr[p].size)]
            && m.freep == p && i + 1 < |m.chain| && m.chain[i] == p && m.chain[i + 1] == b
  {
    var t := Link(h, i, b);
    var p, n := h.chain[i], |h.chain|;
    var q := h.hdr[p].ptr;
    assert Points(h, Next(i, n)) && Points(t, i + 1);
    assert q == h.chain[Next(i, n)];
    if i + 1 < n {
      assert Points(t, i + 2) && t.chain[i + 2] == q && q != p && q != b;
      assert Adjacent(t, i + 1) <==> b + h.hdr[b].size == q;
    } else {
      assert q == h.base && h.base <= p;
      assert !Adjacent(t, i + 1);
    }
  }

  lemma LowerIsMerge(m: Heap, hdr: map<int, Header>, i: nat, p: int, b: int)
    requires Ring(m) && i + 1 < |m.chain| && m.chain[i] == p && m.chain[i + 1] == b && p != b
    requires p in hdr && b in hdr && m.hdr == hdr[p := Header(b, hdr[p].size)]
    ensures Merge(m, i).hdr == LowerWrite(hdr, p, b) && Merge(m, i).freep == m.freep
  {
    assert Points(m, i) && Points(m, i + 1);
  }

  lemma FreedHeaders(h: Heap, i: nat, b: int)
    requires Inv(h) && b in h.live && Slot(h.chain, i, b)
    ensures Points(h, i) && b in h.hdr && h.chain[i] in h.hdr && h.hdr[h.chain[i]].ptr in h.hdr
    ensures h.chain[i] in UpperWrite(h.hdr, h.chain[i], b) && b in UpperWrite(h.hdr, h.chain[i], b)
    ensures Freed(h, i, b).hdr == LowerWrite(UpperWrite(h.hdr, h.chain[i], b), h.chain[i], b)
    ensures Freed(h, i, b).freep == h.chain[i]
  {
    var p := h.chain[i];
    InvIsLoose(h, b);
    LinkLoose(h, i, b);
    var t := Link(h, i, b);
    LinkGaps(h, i, b);
    LinkFreep(h, i, b);
    MergeKeeps(t, i + 1, i);
    hide Tiled, Sizes, Gap, Merge, Link;
    UpperIsMerge(h, i, b);
    LowerIsMerge(Merge(t, i + 1), UpperWrite(h.hdr, p, b), i, p, b);
  }

  lemma MergeFits(h: Heap, i: nat, j: nat, n: nat)
    requires Loose(h) && FitAt(h, n, j) && i <= j <= i + 1
    ensures Fits(Merge(h, i), n)
    ensures j == i ==> FitAt(Merge(h, i), n, i)
  {
    var t := Merge(h, i);
    if Adjacent(h, i) {
      assert FitAt(t, n, i);
    } else {
      assert FitAt(t, n, j);
    }
  }

  lemma FreedFits(h: Heap, i: nat, b: int)
    requires Inv(h) && b in h.live && Slot(h.chain, i, b)
    ensures Points(h, i) && b in h.hdr && Fits(Freed(h, i, b), h.live[b])
  {
    InvIsLoose(h, b);
    LinkLoose(h, i, b);
    LinkGaps(h, i, b);
    LinkFreep(h, i, b);
    var t := Link(h, i, b);
    MergeKeeps(t, i + 1, i);
    LinkFits(h, i, b);
    hide Loose, Merge, Link, FitAt, Fits;
    MergeFits(t, i + 1, i + 1, h.live[b]);
    MergeFits(Merge(t, i + 1), i, i + 1, h.live[b]);
  }

  lemma LinkFits(h: Heap, i: nat, b: int)
    requires Inv(h) && b in h.live && Slot(h.chain, i, b) && Points(h, i) && b in h.hdr
    ensures FitAt(Link(h, i, b), h.live[b], i + 1)
  {
  }

  lemma LastBelow(chain: seq<int>, i: nat, b: int)
    requires Sorted(chain) && Slot(chain, i, b)
    ensures chain[i] in chain && chain[i] < b && forall q :: q in chain && q < b ==> q <= chain[i]
  {
  }

  class Allocator {
    const base: int
    var hdr: map<int, Header>
    /** 0 before the first malloc. */
    var freep: int
    ghost var chain: seq<int>
    ghost var live: map<int, nat>
    ghost var own: map<int, int>

    ghost function S(): Heap
      reads this
    {
      Heap(base, hdr, freep, chain, live, own)
    }

    /** Find the list element after which `bp` belongs. */
    method FindSlot(bp: int) returns (p: int, ghost i: nat)
      requires Ring(S()) && base < bp && bp !in chain
      ensures Slot(chain, i, bp) && p == chain[i]
      ensures p in chain && p < bp && forall q :: q in chain && q < bp ==> q <= p
    {
      ghost var n := |chain|;
      ghost var j := SlotExists(chain, bp, n);
      ghost var k :| 0 <= k < n && chain[k] == freep;
      p := freep;
      assert Points(S(), k);
      while !(bp > p && bp < hdr[p].ptr)
        invariant 0 <= k < n && p == chain[k] && Points(S(), k)
        decreases Distance(k, j, n)
      {
        if p >= hdr[p].ptr && (bp > p || bp < hdr[p].ptr) {
          break;
        }
        p := hdr[p].ptr;
        k := Next(k, n);
        assert Points(S(), k);
      }
      i := k;
      LastBelow(chain, i, bp);
    }

    /** The header writes of free, once `p` is known. */
    method Insert(p: int, bp: int)
      requires p in hdr && bp in hdr && hdr[p].ptr in hdr
      modifies this`hdr, this`freep
      ensures p in UpperWrite(old(hdr), p, bp) && bp in UpperWrite(old(hdr), p, bp)
      ensures hdr == LowerWrite(UpperWrite(old(hdr), p, bp), p, bp) && freep == p
    {
      var q := hdr[p].ptr;
      if bp + hdr[bp].size == q {
        hdr := hdr[bp := Header(hdr[q].ptr, hdr[bp].size + hdr[q].size)];
      } else {
        hdr := hdr[bp := Header(q, hdr[bp].size)];
      }
      if p + hdr[p].size == bp {
        hdr := hdr[p := Header(hdr[bp].ptr, hdr[p].size + hdr[bp].size)];
      } else {
        hdr := hdr[p := Header(bp, hdr[p].size)];
      }
      freep := p;
    }

    /** Put a live block back on the free list, coalescing it with its neighbours. */
    method Free(bp: int)
      requires Inv(S()) && bp in live
      modifies this`hdr, this`freep, this`chain, this`live, this`own
      ensures Inv(S()) && live == old(live) - {bp} && own.Keys == old(own).Keys
      ensures Fits(S(), old(live)[bp])
      ensures freep in old(chain) && freep < bp && forall q :: q in old(chain) && q < bp ==> q <= freep
    {
      hide Inv, Ring, Slot, Points, Freed, Fits, UpperWrite, LowerWrite;
      ghost var s := S();
      LiveIsAbove(s, bp);
      var p;
      ghost var i;
      p, i := FindSlot(bp);
      FreedInv(s, i, bp);
      FreedBooks(s, i, bp);
      FreedFits(s, i, bp);
      FreedHeaders(s, i, bp);
      Insert(p, bp);
      chain, live, own := Freed(s, i, bp).chain, Freed(s, i, bp).live, Freed(s, i, bp).own;
      assert S() == Freed(s, i, bp);
    }

    /** Give out free block `p`, or its tail, and remember where the search stopped. */
    method Take(prevp: int, p: int, nunits: nat, ghost k: nat) returns (a: int)
      requires Inv(S()) && 1 <= k < |chain| && prevp == chain[k - 1] && p == chain[k]
      requires p in hdr && prevp in hdr && 0 < nunits <= hdr[p].size
      modifies this`hdr, this`freep, this`chain, this`live, this`own
      ensures Inv(S()) && a !in old(live) && live == old(live)[a := nunits] && own.Keys == old(own).Keys && base < a
      ensures a == p + old(hdr[p].size) - nunits && freep == prevp
    {
      hide Inv, Remove;
      ghost var s := S();
      RingPoints(s, k);
      if hdr[p].size == nunits {
        TakeWholeInv(s, k);
        NotLive(s, k);
        hdr := hdr[prevp := Header(hdr[p].ptr, hdr[prevp].size)];
        freep := prevp;
        chain, live := Remove(chain, k), live[p := nunits];
        assert S() == TakeWhole(s, k);
        a := p;
      } else {
        TakeTailInv(s, k, nunits);
        var left := hdr[p].size - nunits;
        hdr := hdr[p := Header(hdr[p].ptr, left)];
        a := p + left;
        hdr := hdr[a := Header(0, nunits)];
        freep := prevp;
        live := live[a := nunits];
        own := map u | u in own :: if In(u, a, nunits) then a else own[u];
        assert S() == TakeTail(s, k, nunits);
      }
      LiveIsAbove(S(), a);
    }

    /** Ask sbrk for at least 4096 units and free the new block into the list. */
    method Morecore(nu: nat, core: Sbrk) returns (ok: bool)
      requires Inv(S()) && 0 < nu && (core.Core? ==> Above(S(), core.c))
      modifies this`hdr, this`freep, this`chain, this`live, this`own
      ensures ok <==> core.Core?
      ensures !ok ==> unchanged(this)
      ensures ok ==> Inv(S()) && live == old(live) && Fits(S(), nu)
      ensures ok ==> own.Keys == old(own).Keys + CoreUnits(core.c, CoreSize(nu))
    {
      hide Inv, Above, Fits;
      if core == NoCore {
        return false;
      }
      ghost var s := S();
      var n := CoreSize(nu);
      var c := core.c;
      ChunkInv(s, c, n);
      hdr := hdr[c := Header(0, n)];
      live := live[c := n];
      own := own + map u | c <= u < c + n && In(u, c, n) :: c;
      assert S() == Chunk(s, c, n);
      Free(c);
      assert live == old(live);
      FitsSmaller(S(), n, nu);
      return true;
    }

    /**
     malloc of `nunits` units, once the list exists: first fit from the block after `freep`. sbrk is asked
     only when no free block fits, and at most once.
     */
    method Search(nunits: nat, core: Sbrk) returns (a: int, calls: nat, ghost j: nat)
      requires Inv(S()) && 0 < base && 0 < nunits && (core.Core? ==> Above(S(), core.c))
      modifies this`hdr, this`freep, this`chain, this`live, this`own
      ensures Inv(S()) && calls <= 1
      ensures calls == 1 <==> !Fits(old(S()), nunits)
      ensures a == 0 <==> calls == 1 && core == NoCore
      ensures a == 0 ==> unchanged(this)
      ensures a != 0 ==> base < a && a !in old(live) && live == old(live)[a := nunits]
      ensures a != 0 ==> own.Keys == old(own).Keys + if calls == 1 then CoreUnits(core.c, CoreSize(nunits)) else {}
      ensures calls == 0 ==> FirstFit(old(S()), nunits, j)
      ensures calls == 0 ==> a == old(chain)[j] + old(hdr)[old(chain)[j]].size - nunits && freep == old(chain)[j - 1]
    {
      hide Inv, Above, Points, Fits, Small, CoreUnits, CoreSize, FirstFit;
      ghost var s := S();
      NoneSeen(s, nunits);
      calls, j := 0, 0;
      var prevp := freep;
      ghost var f: nat := FreepIndex(s);
      var p := hdr[prevp].ptr;
      ghost var t: nat := 0;
      while true
        invariant Inv(S()) && f < |chain| && freep == chain[f] && t < |chain|
        invariant prevp == chain[Cyc(f + t, |chain|)] && p == chain[Cyc(f + t + 1, |chain|)]
        invariant Small(S(), nunits, f, t)
        invariant calls == 0 ==> S() == s
        invariant calls <= 1 && (calls == 1 ==> core.Core? && Fits(S(), nunits) && !Fits(s, nunits) && live == s.live)
        invariant calls == 1 ==> own.Keys == s.own.Keys + CoreUnits(core.c, CoreSize(nunits))
        decreases 1 - calls, |chain| - t
      {
        ghost var k := Cyc(f + t + 1, |chain|);
        InList(S(), f, t);
        if hdr[p].size >= nunits {
          FoundFits(S(), nunits, f, t);
          FirstFound(S(), nunits, f, t);
          j := k;
          a := Take(prevp, p, nunits, k);
          return;
        }
        SmallStep(S(), nunits, f, t);
        if p == freep {
          AllSmall(S(), nunits, f, t);
          var ok := Morecore(nunits, core);
          calls := 1;
          if !ok {
            return 0, 1, 0;
          }
          p := freep;
          f := FreepIndex(S());
          NoneSeen(S(), nunits);
          t := 0;
          prevp := p;
          p := hdr[p].ptr;
        } else {
          prevp := p;
          p := hdr[p].ptr;
          t := t + 1;
        }
      }
    }

    /**
     malloc: a block of header plus payload; the result is the address behind the header, 0 on failure. `own` holds the
     units booked. Those booked for an answer of sbrk are the ones it was asked for below 2^28 units and only there.
     */
    method Malloc(nbytes: nat, core: Sbrk) returns (r: int, calls: nat, ghost j: nat)
      requires nbytes < TWO32 && 0 < base && (Unused(S()) || Inv(S())) && (core.Core? ==> Above(S(), core.c))
      modifies this`hdr, this`freep, this`chain, this`live, this`own
      ensures Inv(S()) && calls <= 1
      ensures r == 0 <==> calls == 1 && core == NoCore
      ensures r == 0 ==> live == old(live) && own == old(own)
      ensures r != 0 ==> r - 1 !in old(live) && live == old(live)[r - 1 := Units(nbytes)]
      ensures r != 0 ==> own.Keys == old(own).Keys + if calls == 1 then CoreUnits(core.c, CoreSize(Units(nbytes))) else {}
      ensures Inv(old(S())) ==> (calls == 0 <==> Fits(old(S()), Units(nbytes)))
      ensures Inv(old(S())) && calls == 0 ==> FirstFit(old(S()), Units(nbytes), j)
      ensures Inv(old(S())) && calls == 0 ==> r - 1 == old(chain)[j] + old(hdr)[old(chain)[j]].size - Units(nbytes)
      ensures SbrkArg(CoreSize(Units(nbytes))) == 8 * CoreSize(Units(nbytes)) <==> Units(nbytes) < 0x1000_0000
    {
      hide Inv, Fits, SbrkArg, FirstFit;
      SbrkArgExact(CoreSize(Units(nbytes)));
      var nunits := Units(nbytes);
      if freep == 0 {
        FreepNotNull(S());
        hdr := hdr[base := Header(base, 0)];
        freep := base;
        chain := [base];
        FirstList(S());
      }
      var a;
      a, calls, j := Search(nunits, core);
      r := if a == 0 then 0 else a + 1;
    }

    /** The allocator before the first malloc: an unlinked `base`. */
    constructor (base: int)
      requires 0 < base
      ensures this.base == base && Unused(S())
    {
      this.base := base;
      hdr := map[];
      freep := 0;
      chain := [];
      live := map[];
      own := map[];
    }
  }

  /** Index on the ring, for an index that has gone round at most once. */
  function Cyc(x: nat, n: nat): int {
    if x < n then x else x - n
  }

  /** The `t` blocks after index `f` are all too small. */
  predicate Small(h: Heap, nunits: nat, f: nat, t: nat) {
    forall s :: 0 <= s < t ==> SmallAt(h, nunits, f, s)
  }

  predicate SmallAt(h: Heap, nunits: nat, f: nat, s: nat) {
    var j := Cyc(f + s + 1, |h.chain|);
    0 <= j < |h.chain| && h.chain[j] in h.hdr && Size(h, h.chain[j]) < nunits
  }

  lemma FreepIndex(h: Heap) returns (f: nat)
    requires Inv(h)
    ensures f < |h.chain| && h.chain[f] == h.freep && h.freep in h.hdr
    ensures h.hdr[h.freep].ptr == h.chain[Cyc(f + 1, |h.chain|)]
  {
    f :| 0 <= f < |h.chain| && h.chain[f] == h.freep;
    assert Points(h, f);
  }

  /** Everything the loop needs to know about its two pointers. */
  lemma InList(h: Heap, f: nat, t: nat)
    requires Inv(h) && f < |h.chain| && t < |h.chain| && h.freep == h.chain[f]
    ensures var k, j := Cyc(f + t + 1, |h.chain|), Cyc(f + t, |h.chain|);
            && 0 <= k < |h.chain| && 0 <= j < |h.chain| && h.chain[k] in h.hdr && h.chain[j] in h.hdr
            && h.hdr[h.chain[k]].ptr == h.chain[Cyc(k + 1, |h.chain|)]
            && (h.hdr[h.chain[k]].size > 0 ==> 1 <= k && j == k - 1)
            && (h.chain[k] == h.freep <==> t == |h.chain| - 1)
            && (t + 1 < |h.chain| ==> Cyc(k + 1, |h.chain|) == Cyc(f + (t + 1) + 1, |h.chain|))
  {
    var k := Cyc(f + t + 1, |h.chain|);
    assert Points(h, k) && Points(h, Cyc(f + t, |h.chain|));
  }

  lemma NoneSeen(h: Heap, nunits: nat)
    ensures forall f :: Small(h, nunits, f, 0)
  {
  }

  lemma FoundFits(h: Heap, nunits: nat, f: nat, t: nat)
    requires f < |h.chain| && t < |h.chain|
    requires var k := Cyc(f + t + 1, |h.chain|); 0 <= k < |h.chain| && h.chain[k] in h.hdr && h.hdr[h.chain[k]].size >= nunits
    ensures Fits(h, nunits)
  {
    assert FitAt(h, nunits, Cyc(f + t + 1, |h.chain|));
  }

  /** Going up in address order from `freep`, and from the end of the list back to its start, block `a` is met before `b`. */
  predicate MetBefore(freep: int, a: int, b: int) {
    a != b && if freep < b then freep < a < b else freep < a || a < b
  }

  /** Block `j` is large enough, and every free block that is met before it, starting behind `freep`, is too small. */
  ghost predicate FirstFit(h: Heap, nunits: nat, j: nat) {
    && 1 <= j < |h.chain| && h.chain[j] in h.hdr && h.hdr[h.chain[j]].size >= nunits
    && forall a :: a in h.chain && MetBefore(h.freep, a, h.chain[j]) ==> a in h.hdr && h.hdr[a].size < nunits
  }

  lemma FirstFound(h: Heap, nunits: nat, f: nat, t: nat)
    requires Inv(h) && f < |h.chain| && t < |h.chain| && h.freep == h.chain[f] && Small(h, nunits, f, t)
    requires var k := Cyc(f + t + 1, |h.chain|);
             1 <= k < |h.chain| && h.chain[k] in h.hdr && h.hdr[h.chain[k]].size >= nunits
    ensures FirstFit(h, nunits, Cyc(f + t + 1, |h.chain|))
  {
    hide Loose;
    var n, k := |h.chain|, Cyc(f + t + 1, |h.chain|);
    assert Sorted(h.chain) by { SortedList(h); }
    forall a | a in h.chain && MetBefore(h.freep, a, h.chain[k])
      ensures a in h.hdr && h.hdr[a].size < nunits
    {
      var i :| 0 <= i < n && h.chain[i] == a;
      var s := if i > f then i - f - 1 else i + n - f - 1;
      assert 0 <= s < t;
      assert SmallAt(h, nunits, f, s);
    }
  }

  lemma SortedList(h: Heap)
    requires Inv(h)
    ensures Sorted(h.chain)
  {
  }

  lemma SmallStep(h: Heap, nunits: nat, f: nat, t: nat)
    requires f < |h.chain| && t < |h.chain| && Small(h, nunits, f, t)
    requires var k := Cyc(f + t + 1, |h.chain|); 0 <= k < |h.chain| && h.chain[k] in h.hdr && h.hdr[h.chain[k]].size < nunits
    ensures Small(h, nunits, f, t + 1)
  {
    assert SmallAt(h, nunits, f, t);
  }

  /** Once the search is back at `freep` it has seen every block. */
  lemma AllSmall(h: Heap, nunits: nat, f: nat, t: nat)
    requires f < |h.chain| && t == |h.chain| - 1 && Small(h, nunits, f, t + 1)
    ensures !Fits(h, nunits)
  {
    forall j | 0 <= j < |h.chain| ensures !FitAt(h, nunits, j) {
      var s := if j > f then j - f - 1 else j - f - 1 + |h.chain|;
      assert SmallAt(h, nunits, f, s);
    }
  }

  const TWO32 := 0x1_0000_0000

  /** Units for `nbytes` bytes and the header, as malloc computes them in 32-bit arithmetic. */
  function Units(nbytes: nat): nat {
    (nbytes + 7) % TWO32 / 8 + 1
  }

  /** The block malloc takes has room for the header and the payload if and only if the sum did not wrap. */
  lemma UnitsExact(nbytes: nat)
    requires nbytes < TWO32
    ensures 8 * (Units(nbytes) - 1) >= nbytes <==> nbytes + 7 < TWO32
    ensures nbytes + 7 < TWO32 ==> 8 * (Units(nbytes) - 2) < nbytes
  {
  }

  /** The int that sbrk gets when morecore asks for `nu` units. */
  function SbrkArg(nu: nat): int {
    var n := nu * 8 % TWO32;
    if n < 0x8000_0000 then n else n - TWO32
  }

  /** It is the size of that many units if and only if it stays below 2^31; else the process shrinks or stays. */
  lemma SbrkArgExact(nu: nat)
    requires nu * 8 <= TWO32
    ensures SbrkArg(nu) == nu * 8 <==> nu < 0x1000_0000
    ensures nu >= 0x1000_0000 ==> SbrkArg(nu) <= 0
  {
  }

  lemma FreepNotNull(h: Heap)
    requires (Unused(h) || Inv(h)) && h.freep == 0 && 0 < h.base
    ensures Unused(h) && !Inv(h)
  {
    if Inv(h) {
      FreepPositive(h);
    }
  }

  lemma FreepPositive(h: Heap)
    requires Inv(h) && 0 < h.base
    ensures h.freep > 0
  {
    var j :| 0 <= j < |h.chain| && h.chain[j] == h.freep;
  }

  lemma FirstList(h: Heap)
    requires h.chain == [h.base] && h.freep == h.base && h.live == map[] && h.own == map[]
    requires h.base in h.hdr && h.hdr[h.base] == Header(h.base, 0)
    ensures Inv(h)
  {
    assert forall a :: IsBlock(h, a) <==> a == h.base;
  }

  /** No malloc has run yet. */
  predicate Unused(h: Heap) {
    h.freep == 0 && h.chain == [] && h.live == map[] && h.own == map[] && 0 < h.base
  }

  function CoreSize(nu: nat): nat {
    if nu < 4096 then 4096 else nu
  }

  function CoreUnits(c: int, n: nat): set<int> {
    set u | c <= u < c + n && In(u, c, n)
  }

  /** New core is at least 4096 units, and what was asked for beyond that. */
  lemma CoreExactly(c: int, nu: nat, u: int)
    ensures u in CoreUnits(c, CoreSize(nu)) <==> c <= u < c + nu || c <= u < c + 4096
  {
  }

  lemma RingPoints(h: Heap, k: nat)
    requires Inv(h) && 1 <= k < |h.chain|
    ensures Points(h, k) && Points(h, k - 1)
  {
  }

  lemma NotLive(h: Heap, k: nat)
    requires Inv(h) && k < |h.chain|
    ensures h.chain[k] !in h.live
  {
    assert h.chain[k] in h.chain;
  }

  lemma FitsSmaller(h: Heap, n: nat, m: nat)
    requires Fits(h, n) && m <= n
    ensures Fits(h, m)
  {
    var j :| 0 <= j < |h.chain| && FitAt(h, n, j);
    assert FitAt(h, m, j);
  }

  lemma LiveIsAbove(h: Heap, b: int)
    requires Inv(h) && b in h.live
    ensures Ring(h) && h.base < b && b !in h.chain
  {
  }
}
