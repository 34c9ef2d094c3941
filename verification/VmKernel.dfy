/**
 vm.c and kalloc.c as an object: the free list and the frames, changed in place by walkpgdir, mappages,
 allocuvm, deallocuvm, freevm, setupkvm and copyuvm, with every out-of-memory exit.
 */
module VmKernel {
  import opened VmSpace
  import opened VmSteps
  import opened VmLife
  import opened VmFrames

  const PGSIZE := 4096
  const KERNBASE := 0x8000_0000

  /** Pages needed for `sz` bytes: PGROUNDUP(sz) / PGSIZE. */
  function Up(sz: nat): nat {
    (sz + PGSIZE - 1) / PGSIZE
  }

  /** Up is the number of pages that sz bytes reach into. */
  lemma UpExactly(sz: nat)
    ensures (Up(sz) - 1) * 4096 < sz <= Up(sz) * 4096 || (sz == 0 && Up(sz) == 0)
  {
  }

  /** Address `a` of `d` is present, writable and the user's, and holds a zero. */
  ghost predicate FreshByte(s: Vm, d: nat, a: nat) {
    var e := Pte(s, d, a / 4096);
    && e.Entry? && e.flags / 2 % 2 == 1 && e.flags / 4 % 2 == 1
    && e.frame in s.mem && s.mem[e.frame].Bytes? && |s.mem[e.frame].bytes| == 4096 && s.mem[e.frame].bytes[a % 4096] == 0
  }

  lemma GrownFresh(s: Vm, t: Vm, d: nat, oldsz: nat, newsz: nat)
    requires Grown(s, t, d, Up(oldsz), Up(newsz), {}) && newsz < KERNBASE
    ensures forall a: nat :: (oldsz + 4095) / 4096 * 4096 <= a < newsz ==> FreshByte(t, d, a)
  {
    forall a: nat | (oldsz + 4095) / 4096 * 4096 <= a < newsz
      ensures FreshByte(t, d, a)
    {
      assert Up(oldsz) <= a / 4096 < Up(newsz);
      assert ZeroPageAt(t, d, a / 4096);
    }
  }

  /** The first `n` pages are there. */
  ghost predicate PagesBelow(s: Vm, d: nat, n: nat) {
    forall v :: 0 <= v < n ==> Pte(s, d, v).Entry?
  }

  lemma NoPages(s: Vm, d: nat, km: seq<Kmap>)
    ensures PagesBelow(s, d, 0) && CopyNeed(km, 0) == 1 + |SpannedRows(km)|
  {
    SpannedNone(0);
  }

  lemma PageBelow(s: Vm, d: nat, n: nat)
    requires PagesBelow(s, d, n) && Pte(s, d, n).Entry?
    ensures PagesBelow(s, d, n + 1)
  {
  }

  lemma NoRows()
    ensures SpannedRows([]) == {}
  {
  }

  lemma NoTables(s: Vm, d: nat)
    requires d in s.mem && s.mem[d] == EmptyTable()
    ensures Tables(s, d) == {}
  {
  }

  /** What walkpgdir reads in the directory. */
  lemma WalkReads(s: Vm, d: nat, v: nat)
    requires Good(s) && d in s.dirs && v < VPAGES
    ensures IsTable(s, d) && s.mem[d].entries[v / NENTRIES] == Pde(s, d, v / NENTRIES)
    ensures forall f :: Spare(s, f) ==> f in s.mem
    ensures v / NENTRIES in Tables(s, d) <==> Pde(s, d, v / NENTRIES).Entry?
    ensures Pde(s, d, v / NENTRIES).Entry? ==>
              && HasTable(s, d, v) && Tables(s, d) + {v / NENTRIES} == Tables(s, d)
              && Pde(s, d, v / NENTRIES).flags / 2 % 2 == 1 && Pde(s, d, v / NENTRIES).flags / 4 % 2 == 1
  {
  }

  /** What it has done when it has made a page table. */
  lemma WalkNew(s: Vm, d: nat, v: nat)
    requires Good(s) && d in s.dirs && v < VPAGES && s.free != [] && Pde(s, d, v / NENTRIES).NoEntry?
    ensures IsTable(s, d)
    ensures var t := NewTable(s, d, v / NENTRIES);
            && HasTable(t, d, v) && Pde(t, d, v / NENTRIES) == Entry(s.free[0], PDEFLAGS)
            && Tables(t, d) == Tables(s, d) + {v / NENTRIES} && |Tables(t, d)| == |Tables(s, d)| + 1
            && (forall f :: Spare(s, f) ==> Spare(t, f) && f in s.mem && f in t.mem && t.mem[f] == s.mem[f])
            && s.owner.Keys <= t.owner.Keys
  {
    var t := NewTable(s, d, v / NENTRIES);
    assert s.free[0] != d && s.free[0] !in s.owner;
    TablesAdded(s, t, d, v / NENTRIES, Entry(s.free[0], PDEFLAGS));
  }

  lemma TableIsNotDir(s: Vm, d: nat, v: nat)
    requires Good(s) && d in s.dirs && HasTable(s, d, v) && v < VPAGES
    ensures Pde(s, d, v / NENTRIES).frame != d && d in s.mem
  {
  }

  lemma SpareIsNotDir(s: Vm, d: nat, f: nat)
    requires Good(s) && d in s.dirs && Spare(s, f)
    ensures f != d && d in s.mem
  {
  }

  /** mappages' outcomes: done, out of memory for a page table, or panic("remap"). */
  datatype MapOutcome = Mapped | NoMemory | Remap

  lemma UvSame(s: Vm, t: Vm, d: nat, v: nat)
    requires SameSpace(s, t, d) && v < VPAGES
    ensures Pte(t, d, v) == Pte(s, d, v)
  {
    assert SamePage(s, t, d, v);
  }

  lemma NewPageAfterSame(s: Vm, t: Vm, u: Vm, d: nat, v: nat, e: Entry, page: Page)
    requires SameSpace(s, t, d) && NewPage(t, u, d, v, e, page)
    ensures NewPage(s, u, d, v, e, page)
  {
    forall w | 0 <= w < VPAGES && w != v ensures SamePage(s, u, d, w) {
      assert SamePage(s, t, d, w) && SamePage(t, u, d, w);
    }
  }

  /** A page table holds the next NENTRIES pages; without one none of them is mapped. */
  lemma NoTableNoPages(s: Vm, d: nat, v: nat, w: nat)
    requires Pde(s, d, v / NENTRIES).NoEntry? && v <= w < (v / NENTRIES + 1) * NENTRIES
    ensures Pte(s, d, w).NoEntry?
  {
    assert w / NENTRIES == v / NENTRIES;
  }

  lemma SkipTable(s: Vm, t: Vm, d: nat, lo: nat, v: nat, hi: nat)
    requires Shrunk(s, t, d, lo, v) && lo <= v < hi <= UVPAGES && Pde(t, d, v / NENTRIES).NoEntry?
    ensures var w := (v / NENTRIES + 1) * NENTRIES; v < w && Shrunk(s, t, d, lo, if w < hi then w else hi)
  {
    var w := (v / NENTRIES + 1) * NENTRIES;
    forall x | v <= x < (if w < hi then w else hi) ensures Pte(t, d, x).NoEntry? {
      NoTableNoPages(t, d, v, x);
    }
    ShrunkSkip(s, t, d, lo, v, if w < hi then w else hi);
  }

  lemma SkipPage(s: Vm, t: Vm, d: nat, lo: nat, v: nat)
    requires Shrunk(s, t, d, lo, v) && lo <= v < UVPAGES && Pte(t, d, v).NoEntry?
    ensures Shrunk(s, t, d, lo, v + 1)
  {
    hide Good, Keeps, SamePage;
    ShrunkSkip(s, t, d, lo, v, v + 1);
  }

  lemma ShrunkGood(s: Vm, t: Vm, d: nat, lo: nat, hi: nat)
    requires Shrunk(s, t, d, lo, hi)
    ensures Good(t)
  {
  }

  lemma Unmoved(s: Vm, d: nat)
    requires Good(s) && d in s.dirs
    ensures Keeps(s, s, d, {}) && SameSpace(s, s, d)
  {
  }

  lemma ShrunkSpare(t: Vm, u: Vm, d: nat, lo: nat, hi: nat, f: nat)
    requires Shrunk(t, u, d, lo, hi) && Spare(t, f)
    ensures Spare(u, f)
  {
  }

  lemma GrownOutside(s: Vm, t: Vm, d: nat, lo: nat, v: nat, w: nat)
    requires Grown(s, t, d, lo, v, {}) && v <= w < VPAGES
    ensures Pte(t, d, w) == Pte(s, d, w)
  {
    assert if lo <= w < v then ZeroPageAt(t, d, w) else SamePage(s, t, d, w);
  }

  lemma NotOwned(s: Vm, t: Vm, d: nat, lo: nat, v: nat, f: nat)
    requires Grown(s, t, d, lo, v, {})
    ensures f !in t.owner ==> f !in s.owner
  {
  }

  /** Taking a frame and filling it with bytes touches no mapping. */
  lemma TakeAndFill(t: Vm, d: nat, bytes: seq<int>)
    requires Good(t) && d in t.dirs && t.free != []
    ensures var f := t.free[0]; var q := Fill(Pop(t), f, bytes);
            && Good(q) && Keeps(t, q, d, {f}) && SameSpace(t, q, d) && Spare(q, f) && f !in t.owner && t.owner.Keys <= q.owner.Keys
  {
    var f := t.free[0];
    PopGood(t);
    PopKeeps(t, d);
    FillGood(Pop(t), d, f, bytes);
    KeepsTrans(t, Pop(t), Fill(Pop(t), f, bytes), d, {f});
    SameSpaceTrans(t, Pop(t), Fill(Pop(t), f, bytes), d);
  }

  lemma ShrunkAll(s: Vm, t: Vm, d: nat)
    requires Shrunk(s, t, d, 0, UVPAGES)
    ensures Good(t) && d in t.dirs && (forall v :: 0 <= v < UVPAGES ==> Pte(t, d, v).NoEntry?)
  {
  }

  lemma FreeingReads(t: Vm, c: Vm, d: nat, x: nat)
    requires Good(t) && d in t.dirs && Freeing(t, c, d, x)
    ensures IsTable(t, d) && d in c.mem && c.mem[d] == t.mem[d] && Good(c)
  {
    assert t.owner[d] == AsDir;
  }

  lemma RestoredSelf(s: Vm)
    requires Good(s)
    ensures Restored(s, s)
  {
  }

  lemma NewDirEmpty(s: Vm)
    requires Good(s) && s.free != []
    ensures KernelOnly(NewDir(s), s.free[0], [])
  {
    forall v | 0 <= v < VPAGES ensures Pte(NewDir(s), s.free[0], v) == KernEntry([], v) {
      NewDirEntries(s, s.free[0], 0, v);
    }
  }

  lemma KernelPageSet(s: Vm, t: Vm, d: nat, v: nat, e: Entry)
    requires SameSpace(s, t, d) && Good(t) && d in t.dirs && UVPAGES <= v < VPAGES && HasTable(t, d, v)
    ensures var u := SetPte(t, d, v, e);
            && Good(u) && Keeps(t, u, d, {}) && Pte(u, d, v) == e
            && (forall w :: 0 <= w < VPAGES && w != v ==> Pte(u, d, w) == Pte(s, d, w))
  {
    SetPteOne(t, d, v, e);
    KernelMapKeepsGood(t, SetPte(t, d, v, e), d, v, e);
    OnePteKeeps(t, d, v, e);
    forall w | 0 <= w < VPAGES && w != v ensures Pte(SetPte(t, d, v, e), d, w) == Pte(s, d, w) {
      assert SamePage(s, t, d, w) && SamePage(t, SetPte(t, d, v, e), d, w);
    }
  }

  lemma KernelHalfStep(s: Vm, u: Vm, d: nat, km: seq<Kmap>, j: nat, i: nat)
    requires GoodKmap(km) && j < |km| && i < km[j].n && KernelHalf(s, d, km[..j], km[j], i)
    requires Pte(u, d, km[j].v + i) == Entry(km[j].frame + i, km[j].perm)
    requires forall w :: 0 <= w < VPAGES && w != km[j].v + i ==> Pte(u, d, w) == Pte(s, d, w)
    ensures KernelHalf(u, d, km[..j], km[j], i + 1)
  {
    hide Pte;
  }

  lemma KernelHalfNext(s: Vm, d: nat, km: seq<Kmap>, j: nat, i: nat)
    requires GoodKmap(km) && j < |km| && i < km[j].n && KernelHalf(s, d, km[..j], km[j], i)
    ensures Pte(s, d, km[j].v + i).NoEntry?
  {
    KernEntryOutside(km, j, km[j].v + i);
  }

  lemma KernelHalfStart(s: Vm, d: nat, km: seq<Kmap>, k: Kmap)
    requires KernelOnly(s, d, km)
    ensures KernelHalf(s, d, km, k, 0)
  {
    hide Pte;
  }

  /** Page `v` of `d2` is a private copy of page `v` of `d`. */
  predicate CopyOf(s: Vm, t: Vm, d: nat, d2: nat, v: nat) {
    var e, e2 := Pte(s, d, v), Pte(t, d2, v);
    && e.Entry? && e2.Entry? && e2.flags == e.flags && e2.frame != e.frame
    && e.frame in s.mem && e2.frame in t.mem && t.mem[e2.frame] == s.mem[e.frame]
  }

  /** The first `n` pages of `d` are copied to `d2`, which maps nothing else but the kernel. */
  ghost predicate Copied(s: Vm, t: Vm, d: nat, d2: nat, n: nat, km: seq<Kmap>) {
    && Good(t) && Keeps(s, t, d2, {}) && d2 in t.dirs && d2 !in s.owner && d2 !in s.dirs
    && (forall v :: 0 <= v < n ==> CopyOf(s, t, d, d2, v))
    && (forall v :: n <= v < VPAGES ==> Pte(t, d2, v) == KernEntry(km, v))
  }

  lemma CopiedNothing(s: Vm, t: Vm, d: nat, d2: nat, km: seq<Kmap>)
    requires Good(t) && Keeps(s, t, d2, {}) && d2 in t.dirs && d2 !in s.owner && d2 !in s.dirs && KernelOnly(t, d2, km)
    ensures Copied(s, t, d, d2, 0, km)
  {
  }

  lemma CopiedStep(s: Vm, t: Vm, u: Vm, d: nat, d2: nat, v: nat, km: seq<Kmap>, f: nat, e: Entry)
    requires e.Entry? && e.frame in s.mem && f != e.frame && v < UVPAGES
    requires Pte(s, d, v) == e && Copied(s, t, d, d2, v, km)
    requires Good(u) && Keeps(t, u, d2, {}) && NewPage(t, u, d2, v, Entry(f, e.flags), s.mem[e.frame])
    ensures Copied(s, u, d, d2, v + 1, km)
  {
    hide Good, Keeps, Pte, KernEntry;
    KeepsTrans(s, t, u, d2, {});
    forall w | 0 <= w < v + 1 ensures CopyOf(s, u, d, d2, w) {
      if w < v {
        assert CopyOf(s, t, d, d2, w) && SamePage(t, u, d2, w);
      }
    }
    forall w | v + 1 <= w < VPAGES ensures Pte(u, d2, w) == KernEntry(km, w) {
      assert SamePage(t, u, d2, w);
    }
  }

  lemma CopiedKeeps(s: Vm, t: Vm, d: nat, d2: nat, v: nat, km: seq<Kmap>)
    requires Copied(s, t, d, d2, v, km)
    ensures Keeps(s, t, d2, {}) && d2 in t.dirs && d2 !in s.owner && d2 !in s.dirs
  {
  }

  lemma ParentEntry(s: Vm, t: Vm, d: nat, d2: nat, v: nat, km: seq<Kmap>)
    requires Good(s) && d in s.dirs && Copied(s, t, d, d2, v, km)
    ensures d in t.dirs && Pte(t, d, v) == Pte(s, d, v)
  {
    KeepsOthers(s, t, d2, d, v);
  }

  lemma HasItsTable(s: Vm, d: nat, v: nat)
    requires Good(s) && d in s.dirs && v < VPAGES
    ensures IsTable(s, d) && v / NENTRIES < NENTRIES
    ensures Pde(s, d, v / NENTRIES).Entry? ==> HasTable(s, d, v)
    ensures Pde(s, d, v / NENTRIES).NoEntry? ==> Pte(s, d, v).NoEntry?
  {
  }

  /** The parent's page, seen while the child is being built. */
  lemma ParentPage(s: Vm, t: Vm, d: nat, d2: nat, v: nat, km: seq<Kmap>)
    requires Good(s) && d in s.dirs && Copied(s, t, d, d2, v, km) && v < UVPAGES && Pte(s, d, v).Entry? && GoodKmap(km)
    ensures d in t.dirs && Pte(t, d, v) == Pte(s, d, v) && HasTable(t, d, v)
    ensures var f := Pte(s, d, v).frame;
            f in s.owner && f in t.owner && f in s.mem && f in t.mem && t.mem[f] == s.mem[f] && s.mem[f].Bytes?
    ensures Pte(t, d2, v).NoEntry?
  {
    KeepsOthers(s, t, d2, d, v);
    KernEntryBelow(km, v);
    NotMine(s, d2, d, v);
  }

  // ---------------------------------------------------------------- consequences

  /** Frame conservation: a managed frame is on the free list, once, or in exactly one use. */
  lemma FrameHasOneUse(s: Vm, f: nat)
    requires Good(s) && f in Frames(s)
    ensures f in s.free <==> f !in s.owner
    ensures forall i, j :: 0 <= i < |s.free| && 0 <= j < |s.free| && s.free[i] == s.free[j] ==> i == j
    ensures forall d, v, d', v' :: UserFrame(s, d, v, f) && UserFrame(s, d', v', f) ==> d == d' && v == v'
    ensures forall d, x, d', x' :: TableFrame(s, d, x, f) && TableFrame(s, d', x', f) ==> d == d' && x == x'
    ensures forall d, v, d', x :: UserFrame(s, d, v, f) ==> !TableFrame(s, d', x, f) && f !in s.dirs && f !in s.free
    ensures forall d, x :: TableFrame(s, d, x, f) ==> f !in s.dirs && f !in s.free
  {
    assert forall d, v :: UserFrame(s, d, v, f) ==> f in s.owner && s.owner[f] == AsUser(d, v);
    assert forall d, x :: TableFrame(s, d, x, f) ==> f in s.owner && s.owner[f] == AsTable(d, x);
    assert f in s.dirs ==> s.owner[f] == AsDir;
  }

  predicate UserFrame(s: Vm, d: nat, v: nat, f: nat) {
    d in s.dirs && v < UVPAGES && Pte(s, d, v).Entry? && Pte(s, d, v).frame == f
  }

  predicate TableFrame(s: Vm, d: nat, x: nat, f: nat) {
    d in s.dirs && x < NENTRIES && Pde(s, d, x).Entry? && Pde(s, d, x).frame == f
  }

  /** After copyuvm the parent is untouched and no page of the child is shared with anybody. */
  lemma CopyIsPrivate(s: Vm, t: Vm, d: nat, d2: nat, n: nat, km: seq<Kmap>, v: nat)
    requires Good(s) && d in s.dirs && Copied(s, t, d, d2, n, km) && v < VPAGES
    ensures SamePage(s, t, d, v)
    ensures v < n <= UVPAGES ==> Pte(t, d2, v).Entry?
    ensures v < n <= UVPAGES ==> forall d', v' :: UserFrame(t, d', v', Pte(t, d2, v).frame) ==> d' == d2 && v' == v
  {
    KeepsOthers(s, t, d2, d, v);
    if v < n <= UVPAGES {
      assert CopyOf(s, t, d, d2, v);
      assert UserFrame(t, d2, v, Pte(t, d2, v).frame);
      FrameHasOneUse(t, Pte(t, d2, v).frame);
    }
  }

  /** hi - 1 down to lo. */
  function Countdown(lo: nat, hi: nat): seq<nat> {
    if hi <= lo then [] else [hi - 1] + Countdown(lo, hi - 1)
  }

  lemma CountdownStarts(lo: nat, rest: seq<nat>)
    ensures Countdown(lo, lo) + rest == rest
  {
  }

  lemma CountdownStep(lo: nat, p: nat, rest: seq<nat>)
    requires lo <= p
    ensures [p] + (Countdown(lo, p) + rest) == Countdown(lo, p + 1) + rest
  {
  }

  class Kernel {
    /** kmem.freelist, front first. */
    var free: seq<nat>
    /** Contents of every frame the allocator manages. */
    var mem: map<nat, Page>
    /** The page directories in existence and what each allocated frame is used for. */
    ghost var dirs: set<nat>
    ghost var owner: map<nat, Use>

    ghost function S(): Vm
      reads this
    {
      Vm(free, mem, dirs, owner)
    }

    /** Before kinit: the frames exist and none of them is on the free list. */
    constructor (mem: map<nat, Page>)
      requires 0 !in mem
      ensures Good(S()) && free == [] && dirs == {} && this.mem == mem && owner.Keys == mem.Keys
      ensures forall f :: f in mem ==> Spare(S(), f)
    {
      free := [];
      this.mem := mem;
      dirs := {};
      owner := map f | f in mem :: Other;
    }

    /** Put frames lo..hi on the free list, the highest in front. */
    method Freerange(lo: nat, hi: nat)
      requires Good(S()) && lo <= hi && forall f :: lo <= f < hi ==> Spare(S(), f)
      modifies this`free, this`mem, this`owner
      ensures Good(S()) && Frames(S()) == Frames(old(S()))
      ensures free == Countdown(lo, hi) + old(free)
      ensures forall f :: f in owner <==> f in old(owner) && !(lo <= f < hi)
      ensures forall f :: f in owner ==> owner[f] == old(owner)[f]
    {
      hide Good, Frames, Push, Countdown;
      CountdownStarts(lo, free);
      var p := lo;
      while p + 1 <= hi
        invariant lo <= p <= hi && Good(S()) && Frames(S()) == Frames(old(S()))
        invariant free == Countdown(lo, p) + old(free)
        invariant forall f :: f in owner <==> f in old(owner) && !(lo <= f < p)
        invariant forall f :: f in owner ==> owner[f] == old(owner)[f]
      {
        assert Spare(old(S()), p);
        Kfree(p);
        CountdownStep(lo, p, old(free));
        p := p + 1;
      }
    }

    /** Take the first frame of the free list, 0 if there is none. */
    method Kalloc() returns (f: nat)
      requires Good(S())
      modifies this`free, this`owner
      ensures Good(S()) && (f == 0 <==> old(free) == [])
      ensures f == 0 ==> unchanged(this)
      ensures f != 0 ==> f == old(free)[0] && free == old(free)[1..] && S() == Pop(old(S())) && Spare(S(), f) && Frames(S()) == Frames(old(S()))
    {
      if free == [] {
        return 0;
      }
      PopGood(S());
      f := free[0];
      free := free[1..];
      owner := owner[f := Other];
    }

    /** Fill a frame with junk and put it at the front of the free list. */
    method Kfree(f: nat)
      requires Good(S()) && Spare(S(), f)
      modifies this`free, this`mem, this`owner
      ensures Good(S()) && S() == Push(old(S()), f) && Frames(S()) == Frames(old(S()))
      ensures free == [f] + old(free) && owner == old(owner) - {f} && f in mem && mem[f].Bytes? && |mem[f].bytes| == 4096
      ensures forall i :: 0 <= i < 4096 ==> mem[f].bytes[i] == 1
    {
      PushGood(S(), f);
      mem := mem[f := Bytes(JUNK())];
      free := [f] + free;
      owner := owner - {f};
    }

    /** Make sure page `v` has a page table, allocating one if asked to; false if there is none. */
    method Walkpgdir(d: nat, v: nat, alloc: bool) returns (ok: bool)
      requires Good(S()) && d in dirs && v < VPAGES
      modifies this`free, this`mem, this`owner
      ensures Good(S()) && dirs == old(dirs)
      ensures ok ==> HasTable(S(), d, v)
      ensures ok ==> Pde(S(), d, v / NENTRIES).flags / 2 % 2 == 1 && Pde(S(), d, v / NENTRIES).flags / 4 % 2 == 1
      ensures !ok ==> unchanged(this) && Pde(S(), d, v / NENTRIES).NoEntry? && (!alloc || free == [])
      ensures !alloc ==> unchanged(this)
      ensures ok <==> v / 1024 in Tables(old(S()), d) || (alloc && old(free) != [])
      ensures Tables(S(), d) == Tables(old(S()), d) + if ok then {v / 1024} else {}
      ensures |free| + |Tables(S(), d)| == |old(free)| + |Tables(old(S()), d)|
      ensures Keeps(old(S()), S(), d, {}) && SameSpace(old(S()), S(), d) && old(owner).Keys <= owner.Keys
      ensures forall f :: Spare(old(S()), f) ==> Spare(S(), f) && f in old(mem) && f in mem && mem[f] == old(mem)[f]
    {
      hide Good, Keeps, SameSpace, Tables, Pde, HasTable, Spare, AddTable, Frames;
      var x := v / NENTRIES;
      ghost var s := S();
      WalkReads(s, d, v);
      Unmoved(s, d);
      if mem[d].entries[x].Entry? {
        return true;
      }
      if !alloc {
        return false;
      }
      var t := Kalloc();
      if t == 0 {
        return false;
      }
      NewTableKeeps(s, d, x);
      WalkNew(s, d, v);
      InstallTable(d, x, t);
      assert S() == NewTable(s, d, x);
      return true;
    }

    /** An empty page table in frame `t`, entered in the directory with generous permissions. */
    method InstallTable(d: nat, x: nat, t: nat)
      requires IsTable(S(), d) && x < NENTRIES
      modifies this`mem, this`owner
      ensures S() == AddTable(old(S()), d, x, t)
    {
      mem := mem[t := EmptyTable()][d := Table(mem[d].entries[x := Entry(t, PDEFLAGS)])];
      owner := owner[t := AsTable(d, x)];
    }

    /** mappages for one page: map spare frame `f` at user page `v`. */
    method MapUserPage(d: nat, v: nat, f: nat, flags: nat) returns (r: MapOutcome)
      requires Good(S()) && d in dirs && v < UVPAGES && Spare(S(), f) && f in mem && mem[f].Bytes?
      modifies this`free, this`mem, this`owner
      ensures Good(S()) && dirs == old(dirs)
      ensures old(owner).Keys <= owner.Keys
      ensures r == Remap <==> Pte(old(S()), d, v).Entry?
      ensures r != Mapped ==> Keeps(old(S()), S(), d, {}) && SameSpace(old(S()), S(), d) && Spare(S(), f)
      ensures r == Mapped ==> Keeps(old(S()), S(), d, {f}) && Belongs(S(), f, d)
      ensures r == Mapped ==> NewPage(old(S()), S(), d, v, Entry(f, flags), old(mem)[f])
      ensures r == NoMemory <==> v / 1024 !in Tables(old(S()), d) && old(free) == []
      ensures Tables(S(), d) == Tables(old(S()), d) + if r == NoMemory then {} else {v / 1024}
      ensures |free| + |Tables(S(), d)| == |old(free)| + |Tables(old(S()), d)|
    {
      hide Good, Keeps, SamePage, Belongs, Tables;
      ghost var s := S();
      var ok := Walkpgdir(d, v, true);
      ghost var t := S();
      UvSame(s, t, d, v);
      if !ok {
        NoTableNoPages(t, d, v, v);
        return NoMemory;
      }
      var tf := mem[d].entries[v / NENTRIES].frame;
      if mem[tf].entries[v % NENTRIES].Entry? {
        return Remap;
      }
      MapUserKeeps(t, d, v, f, flags);
      TableIsNotDir(t, d, v);
      mem := mem[tf := Table(mem[tf].entries[v % NENTRIES := Entry(f, flags)])];
      owner := owner[f := AsUser(d, v)];
      assert S() == MapUser(t, d, v, f, flags);
      TablesKept(t, S(), d);
      KeepsWiden(s, t, d, {}, {f});
      KeepsTrans(s, t, S(), d, {f});
      NewPageAfterSame(s, t, S(), d, v, Entry(f, flags), t.mem[f]);
      return Mapped;
    }

    /** Unmap and free one mapped user page. */
    method FreePage(d: nat, v: nat)
      requires Good(S()) && d in dirs && v < UVPAGES && HasTable(S(), d, v) && Pte(S(), d, v).Entry?
      modifies this`free, this`mem, this`owner
      ensures S() == Release(old(S()), d, v)
    {
      var tf := mem[d].entries[v / NENTRIES].frame;
      var f := mem[tf].entries[v % NENTRIES].frame;
      assert f != tf;
      mem := mem[f := Bytes(JUNK())];
      free := [f] + free;
      owner := owner - {f};
      mem := mem[tf := Table(mem[tf].entries[v % NENTRIES := NoEntry])];
    }

    /** One iteration of deallocuvm's loop at page `v`; the result is the page after the loop's `a += PGSIZE`. */
    method DeallocStep(d: nat, v: nat, ghost s: Vm, ghost lo: nat, ghost hi: nat) returns (v': nat)
      requires Good(S()) && Good(s) && d in dirs && d in s.dirs && lo <= v < hi <= UVPAGES && Shrunk(s, S(), d, lo, v)
      modifies this`free, this`mem, this`owner
      ensures v < v' && Good(S()) && dirs == old(dirs)
      ensures Shrunk(s, S(), d, lo, if v' < hi then v' else hi)
    {
      hide Good, Keeps, Shrunk, Pte, Pde, Release, SameSpace;
      ghost var t := S();
      var ok := Walkpgdir(d, v, false);
      if !ok {
        SkipTable(s, t, d, lo, v, hi);
        v' := (v / NENTRIES + 1) * NENTRIES;
      } else {
        if PteIs(d, v) {
          ShrunkStep(s, t, d, lo, v);
          FreePage(d, v);
          ShrunkGood(s, S(), d, lo, v + 1);
        } else {
          SkipPage(s, t, d, lo, v);
        }
        v' := v + 1;
      }
    }

    /** Unmap the user pages between `newsz` and `oldsz` and free their frames. */
    method Deallocuvm(d: nat, oldsz: nat, newsz: nat) returns (r: nat)
      requires Good(S()) && d in dirs && oldsz <= KERNBASE
      modifies this`free, this`mem, this`owner
      ensures newsz >= oldsz ==> r == oldsz && unchanged(this)
      ensures newsz < oldsz ==> r == newsz && Shrunk(old(S()), S(), d, Up(newsz), Up(oldsz))
      ensures Good(S()) && dirs == old(dirs)
    {
      hide Good, Shrunk;
      if newsz >= oldsz {
        return oldsz;
      }
      ghost var s := S();
      ghost var lo, hi := Up(newsz), Up(oldsz);
      ShrunkNothing(s, d, lo);
      var v := Up(newsz);
      while v * PGSIZE < oldsz
        invariant lo <= v && dirs == old(dirs) && lo <= hi <= UVPAGES
        invariant Good(S()) && Shrunk(s, S(), d, lo, if v < hi then v else hi)
        decreases oldsz - v * PGSIZE
      {
        v := DeallocStep(d, v, s, lo, hi);
      }
      return newsz;
    }

    /**
     Map a fresh frame holding `bytes` at page `v`, as the loops of allocuvm and copyuvm do. On failure the address
     space is as before; `f` is 0 or the frame in hand that could not be mapped.
     */
    method MapFresh(d: nat, v: nat, bytes: seq<int>, flags: nat) returns (ok: bool, f: nat)
      requires Good(S()) && d in dirs && v < UVPAGES && Pte(S(), d, v).NoEntry?
      modifies this`free, this`mem, this`owner
      ensures Good(S()) && dirs == old(dirs) && old(owner).Keys <= owner.Keys
      ensures ok ==> f !in old(owner)
      ensures ok ==> Keeps(old(S()), S(), d, {}) && NewPage(old(S()), S(), d, v, Entry(f, flags), Bytes(bytes))
      ensures !ok ==> SameSpace(old(S()), S(), d)
      ensures !ok && f == 0 ==> Keeps(old(S()), S(), d, {})
      ensures !ok && f != 0 ==> Keeps(old(S()), S(), d, {f}) && Spare(S(), f) && f !in old(owner)
      ensures ok <==> |old(free)| >= 1 + if v / 1024 in Tables(old(S()), d) then 0 else 1
      ensures ok ==> Tables(S(), d) == Tables(old(S()), d) + {v / 1024}
      ensures ok ==> |free| + |Tables(S(), d)| + 1 == |old(free)| + |Tables(old(S()), d)|
    {
      hide Good, Keeps, Pte, SameSpace, NewPage, Belongs, Tables;
      ghost var t := S();
      f := Kalloc();
      if f == 0 {
        Unmoved(t, d);
        return false, 0;
      }
      TakeAndFill(t, d, bytes);
      SpareIsNotDir(S(), d, f);
      mem := mem[f := Bytes(bytes)];
      ghost var q := S();
      TablesKept(t, q, d);
      UvSame(t, q, d, v);
      var r := MapUserPage(d, v, f, flags);
      if r == Mapped {
        KeepsTrans(t, q, S(), d, {f});
        KeepsDrop(t, S(), d, f);
        NewPageAfterSame(t, q, S(), d, v, Entry(f, flags), Bytes(bytes));
        return true, f;
      }
      KeepsWiden(q, S(), d, {}, {f});
      KeepsTrans(t, q, S(), d, {f});
      SameSpaceTrans(t, q, S(), d);
      return false, f;
    }

    /** allocuvm's clean-up: unmap the pages mapped so far and put back the frame in hand, if any. */
    method UndoGrow(d: nat, oldsz: nat, newsz: nat, f: nat, ghost s: Vm, ghost v: nat)
      requires Good(S()) && Good(s) && d in dirs && d in s.dirs && oldsz < newsz < KERNBASE && Up(oldsz) <= v <= Up(newsz)
      requires Grown(s, S(), d, Up(oldsz), v, if f == 0 then {} else {f})
      requires f != 0 ==> Spare(S(), f) && f !in s.owner
      requires forall w :: Up(oldsz) <= w < Up(newsz) ==> Pte(s, d, w).NoEntry?
      modifies this`free, this`mem, this`owner
      ensures Good(S()) && Keeps(s, S(), d, {}) && SameSpace(s, S(), d) && dirs == old(dirs)
    {
      hide Good, Keeps, Pte, SameSpace, Grown, Shrunk;
      ghost var t := S();
      var r := Deallocuvm(d, newsz, oldsz);
      ghost var u := S();
      ShrinkUndoesGrow(s, t, u, d, Up(oldsz), v, Up(newsz), if f == 0 then {} else {f});
      if f != 0 {
        ShrunkSpare(t, u, d, Up(oldsz), Up(newsz), f);
        PushKeeps(u, d, f);
        Kfree(f);
        KeepsTrans(s, u, S(), d, {f});
        KeepsDrop(s, S(), d, f);
        SameSpaceTrans(s, u, S(), d);
      }
    }

    /** Grow an address space from `oldsz` to `newsz` bytes; all or nothing. */
    method Allocuvm(d: nat, oldsz: nat, newsz: nat) returns (r: nat, ok: bool)
      requires Good(S()) && d in dirs
      requires newsz < KERNBASE ==> forall w :: Up(oldsz) <= w < Up(newsz) ==> Pte(S(), d, w).NoEntry?
      modifies this`free, this`mem, this`owner
      ensures Good(S()) && dirs == old(dirs)
      ensures newsz >= KERNBASE ==> !ok && r == 0 && unchanged(this)
      ensures newsz < KERNBASE && newsz < oldsz ==> ok && r == oldsz && unchanged(this)
      ensures newsz < KERNBASE && newsz >= oldsz ==> r == if ok then newsz else 0
      ensures newsz < KERNBASE && newsz >= oldsz ==> (ok <==> Need(old(S()), d, Up(oldsz), Up(newsz)) <= |old(free)|)
      ensures newsz < KERNBASE && newsz >= oldsz && ok ==> Grown(old(S()), S(), d, Up(oldsz), Up(newsz), {})
      ensures newsz < KERNBASE && newsz >= oldsz && ok ==>
                forall a: nat :: (oldsz + 4095) / 4096 * 4096 <= a < newsz ==> FreshByte(S(), d, a)
      ensures !ok ==> Keeps(old(S()), S(), d, {}) && SameSpace(old(S()), S(), d)
    {
      hide Good, Keeps, Pte, SameSpace, Grown, NewPage, ZeroBytes, FreshByte, Tables, Need, Left;
      ghost var s := S();
      if newsz >= KERNBASE {
        Unmoved(s, d);
        return 0, false;
      }
      if newsz < oldsz {
        return oldsz, true;
      }
      ghost var lo, hi := Up(oldsz), Up(newsz);
      GrownNothing(s, d, lo);
      LeftNothing(|free|, Tables(s, d), lo);
      var v := Up(oldsz);
      while v * PGSIZE < newsz
        invariant lo <= v <= hi && dirs == old(dirs) && Good(S())
        invariant Grown(s, S(), d, lo, v, {}) && Left(|free|, |s.free|, Tables(S(), d), Tables(s, d), lo, v)
      {
        ghost var t := S();
        GrownOutside(s, t, d, lo, v, v);
        var f;
        ok, f := MapFresh(d, v, ZeroBytes(), PDEFLAGS);
        if !ok {
          NotEnough(s, d, |t.free|, Tables(t, d), |s.free|, lo, v, hi);
          GrownSame(s, t, S(), d, lo, v, if f == 0 then {} else {f});
          NotOwned(s, t, d, lo, v, f);
          UndoGrow(d, oldsz, newsz, f, s, v);
          return 0, false;
        }
        GrownStep(s, t, S(), d, lo, v, f);
        LeftStep(|t.free|, |free|, |s.free|, Tables(t, d), Tables(S(), d), Tables(s, d), lo, v);
        v := v + 1;
      }
      Enough(s, d, |free|, Tables(S(), d), |s.free|, lo, hi);
      GrownFresh(s, S(), d, oldsz, newsz);
      return newsz, true;
    }

    /** Whether page `v`, whose table exists, is present. */
    predicate PteIs(d: nat, v: nat)
      requires HasTable(S(), d, v)
      reads this
      ensures PteIs(d, v) <==> Pte(S(), d, v).Entry?
    {
      mem[mem[d].entries[v / NENTRIES].frame].entries[v % NENTRIES].Entry?
    }

    /** Free an address space: its user pages, its page tables and the directory itself. */
    method Freevm(d: nat)
      requires Good(S()) && d in dirs
      modifies this
      ensures Good(S()) && Freed(old(S()), S(), d)
    {
      hide Good, Shrunk, Freeing, Freed, Pte, Pde, Abandon;
      ghost var s := S();
      var r := Deallocuvm(d, KERNBASE, 0);
      ghost var t := S();
      ShrunkAll(s, t, d);
      FreeingStarts(t, d);
      GiveUp(d);
      var i := 0;
      while i < NENTRIES
        invariant 0 <= i <= NENTRIES
        invariant Freeing(t, S(), d, i)
      {
        FreeTable(d, i, t);
        i := i + 1;
      }
      FreeingReads(t, S(), d, NENTRIES);
      FreeingEnds(s, t, S(), d);
      Kfree(d);
    }

    /** Free the page table behind directory entry `x`, if there is one. */
    method FreeTable(d: nat, x: nat, ghost t: Vm)
      requires Good(t) && d in t.dirs && x < NENTRIES && Freeing(t, S(), d, x)
      modifies this`free, this`mem, this`owner
      ensures Freeing(t, S(), d, x + 1)
    {
      hide Good, Freeing;
      FreeingReads(t, S(), d, x);
      if mem[d].entries[x].Entry? {
        FreeingStep(t, S(), d, x);
        Kfree(mem[d].entries[x].frame);
      } else {
        FreeingSkip(t, S(), d, x);
      }
    }

    /** Bookkeeping only: from here on the frames of `d` are on their way to the free list. */
    ghost method GiveUp(d: nat)
      modifies this`dirs, this`owner
      ensures S() == Abandon(old(S()), d)
    {
      ghost var s := S();
      owner := map f | f in owner :: if Belongs(s, f, d) then Other else owner[f];
      dirs := dirs - {d};
    }

    /** mappages for one kernel page. */
    method MapKernelPage(d: nat, v: nat, frame: nat, perm: nat) returns (ok: bool)
      requires Good(S()) && d in dirs && UVPAGES <= v < VPAGES && Pte(S(), d, v).NoEntry?
      modifies this`free, this`mem, this`owner
      ensures Good(S()) && dirs == old(dirs) && Keeps(old(S()), S(), d, {})
      ensures ok ==> Pte(S(), d, v) == Entry(frame, perm)
      ensures ok ==> forall w :: 0 <= w < VPAGES && w != v ==> Pte(S(), d, w) == Pte(old(S()), d, w)
      ensures ok <==> v / 1024 in Tables(old(S()), d) || old(free) != []
      ensures Tables(S(), d) == Tables(old(S()), d) + if ok then {v / 1024} else {}
      ensures |free| + |Tables(S(), d)| == |old(free)| + |Tables(old(S()), d)|
    {
      hide Good, Keeps, SameSpace, Pte, Tables;
      ghost var s := S();
      ok := Walkpgdir(d, v, true);
      if !ok {
        return;
      }
      ghost var t := S();
      TableIsNotDir(t, d, v);
      KernelPageSet(s, t, d, v, Entry(frame, perm));
      var tf := mem[d].entries[v / NENTRIES].frame;
      mem := mem[tf := Table(mem[tf].entries[v % NENTRIES := Entry(frame, perm)])];
      assert S() == SetPte(t, d, v, Entry(frame, perm));
      TablesKept(t, S(), d);
      KeepsTrans(s, t, S(), d, {});
    }

    /** mappages for row `j` of the kernel map. */
    method MapKernelRow(d: nat, km: seq<Kmap>, j: nat) returns (ok: bool)
      requires Good(S()) && d in dirs && GoodKmap(km) && j < |km| && KernelOnly(S(), d, km[..j])
      modifies this`free, this`mem, this`owner
      ensures Good(S()) && dirs == old(dirs) && Keeps(old(S()), S(), d, {})
      ensures ok ==> KernelOnly(S(), d, km[..j + 1])
      ensures |free| + |Tables(S(), d)| == |old(free)| + |Tables(old(S()), d)|
      ensures ok ==> Tables(S(), d) == Tables(old(S()), d) + Spanned(km[j].v, km[j].v + km[j].n)
      ensures !ok ==> free == [] && Tables(S(), d) < Tables(old(S()), d) + Spanned(km[j].v, km[j].v + km[j].n)
    {
      hide Good, Keeps, KernelHalf, KernelOnly, Pte, Tables, Spanned;
      ghost var s := S();
      SpannedNone(km[j].v);
      Unmoved(s, d);
      KernelHalfStart(s, d, km[..j], km[j]);
      var i := 0;
      while i < km[j].n
        invariant 0 <= i <= km[j].n && dirs == old(dirs)
        invariant Good(S()) && Keeps(s, S(), d, {}) && KernelHalf(S(), d, km[..j], km[j], i)
        invariant Tables(S(), d) == Tables(s, d) + Spanned(km[j].v, km[j].v + i)
        invariant |free| + |Tables(S(), d)| == |s.free| + |Tables(s, d)|
      {
        ghost var t := S();
        KernelHalfNext(t, d, km, j, i);
        ok := MapKernelPage(d, km[j].v + i, km[j].frame + i, km[j].perm);
        KeepsTrans(s, t, S(), d, {});
        if !ok {
          RowShort(Tables(t, d), Tables(s, d), km[j].v, km[j].v + i, km[j].v + km[j].n);
          return;
        }
        SpannedStep(km[j].v, km[j].v + i);
        KernelHalfStep(t, S(), d, km, j, i);
        i := i + 1;
      }
      KernelRowDone(S(), d, km, j);
      ok := true;
    }

    /** An empty page directory in a fresh frame; 0 if there is none. */
    method MakeDirectory() returns (d: nat)
      requires Good(S())
      modifies this
      ensures Good(S()) && (d == 0 <==> old(free) == [])
      ensures d == 0 ==> unchanged(this)
      ensures d != 0 ==> d in dirs && d !in old(owner) && d !in old(dirs) && Keeps(old(S()), S(), d, {}) && KernelOnly(S(), d, [])
      ensures d != 0 ==> Tables(S(), d) == {} && |free| + 1 == |old(free)|
    {
      hide Good, Keeps, KernelOnly, Tables;
      ghost var s := S();
      d := Kalloc();
      if d == 0 {
        return 0;
      }
      NewDirGood(s);
      mem := mem[d := EmptyTable()];
      dirs := dirs + {d};
      owner := owner[d := AsDir];
      assert S() == NewDir(s);
      NewDirEmpty(s);
      NoTables(S(), d);
    }

    /** Make a page directory with the kernel half mapped; 0, with everything restored, if memory runs out. */
    method Setupkvm(km: seq<Kmap>) returns (d: nat)
      requires Good(S()) && GoodKmap(km)
      modifies this
      ensures Good(S())
      ensures d == 0 ==> Restored(old(S()), S())
      ensures d != 0 ==> d in dirs && d !in old(owner) && d !in old(dirs) && Keeps(old(S()), S(), d, {}) && KernelOnly(S(), d, km)
      ensures d != 0 <==> 1 + |SpannedRows(km)| <= |old(free)|
      ensures d != 0 ==> Tables(S(), d) == SpannedRows(km) && |free| + 1 + |SpannedRows(km)| == |old(free)|
    {
      hide Good, Keeps, KernelOnly, Restored, Freed, Tables, Spanned, SpannedRows;
      ghost var s := S();
      d := MakeDirectory();
      NoRows();
      if d == 0 {
        RestoredSelf(s);
        return 0;
      }
      assert km[..0] == [];
      var j := 0;
      while j < |km|
        invariant 0 <= j <= |km| && d in dirs && Good(S()) && Keeps(s, S(), d, {}) && KernelOnly(S(), d, km[..j])
        invariant Tables(S(), d) == SpannedRows(km[..j]) && |free| + 1 + |Tables(S(), d)| == |s.free|
      {
        ghost var t := S();
        var ok := MapKernelRow(d, km, j);
        KeepsTrans(s, t, S(), d, {});
        if !ok {
          ghost var w := S();
          RowsShort(km, j, Tables(w, d));
          Freevm(d);
          CreateThenFree(s, w, S(), d);
          return 0;
        }
        RowsStep(km, j);
        j := j + 1;
      }
      assert km[..|km|] == km;
    }

    /** One iteration of copyuvm's loop; on failure the frame in hand is back on the free list. */
    method CopyPage(d: nat, d2: nat, v: nat, ghost s: Vm, ghost km: seq<Kmap>) returns (ok: bool)
      requires Good(S()) && Good(s) && d in s.dirs && Copied(s, S(), d, d2, v, km) && d2 in dirs
      requires v < UVPAGES && Pte(s, d, v).Entry? && GoodKmap(km)
      modifies this`free, this`mem, this`owner
      ensures Good(S()) && dirs == old(dirs)
      ensures ok ==> Copied(s, S(), d, d2, v + 1, km)
      ensures !ok ==> Keeps(s, S(), d2, {})
      ensures ok <==> |old(free)| >= 1 + if v / 1024 in Tables(old(S()), d2) then 0 else 1
      ensures ok ==> Tables(S(), d2) == Tables(old(S()), d2) + {v / 1024}
      ensures ok ==> |free| + |Tables(S(), d2)| + 1 == |old(free)| + |Tables(old(S()), d2)|
    {
      hide Good, Keeps, Pte, SameSpace, Copied, NewPage, Tables;
      ghost var t := S();
      ParentPage(s, t, d, d2, v, km);
      CopiedKeeps(s, t, d, d2, v, km);
      var e := ReadPte(d, v);
      var page := mem[e.frame];
      var f;
      ok, f := MapFresh(d2, v, page.bytes, e.flags);
      if ok {
        CopiedStep(s, t, S(), d, d2, v, km, f, e);
      } else {
        if f != 0 {
          ghost var u := S();
          PushKeeps(u, d2, f);
          Kfree(f);
          KeepsTrans(t, u, S(), d2, {f});
          KeepsDrop(t, S(), d2, f);
        }
        KeepsTrans(s, t, S(), d2, {});
      }
    }

    /** The entry of page `v`, whose table exists. */
    method ReadPte(d: nat, v: nat) returns (e: Entry)
      requires HasTable(S(), d, v)
      ensures e == Pte(S(), d, v)
    {
      e := mem[mem[d].entries[v / NENTRIES].frame].entries[v % NENTRIES];
    }

    /**
     Copy the first `sz` bytes of address space `d` into a new one. The panic on a missing page strikes at the first
     one, unless memory runs out before. If memory runs out nothing is left behind.
     */
    method Copyuvm(d: nat, sz: nat, km: seq<Kmap>) returns (d2: nat, panicked: bool)
      requires Good(S()) && d in dirs && sz <= KERNBASE && GoodKmap(km)
      modifies this
      ensures Good(S())
      ensures panicked ==> exists v :: 0 <= v < Up(sz) && Pte(old(S()), d, v).NoEntry? && Copied(old(S()), S(), d, d2, v, km)
                                       && CopyNeed(km, v) <= |old(free)|
      ensures !panicked && d2 == 0 ==> Restored(old(S()), S())
      ensures !panicked && d2 == 0 ==> exists n :: 0 <= n <= Up(sz) && PagesBelow(old(S()), d, n) && CopyNeed(km, n) > |old(free)|
      ensures !panicked && d2 != 0 ==> Copied(old(S()), S(), d, d2, Up(sz), km) && CopyNeed(km, Up(sz)) <= |old(free)|
    {
      hide Good, Keeps, Pte, Copied, Restored, KernelOnly, Freed, Tables, Spanned, SpannedRows, CopyNeed, Left, PagesBelow;
      ghost var s := S();
      panicked := false;
      d2 := Setupkvm(km);
      NoPages(s, d, km);
      if d2 == 0 {
        return;
      }
      CopiedNothing(s, S(), d, d2, km);
      ghost var free1 := |s.free| - 1 - |SpannedRows(km)|;
      LeftNothing(free1, SpannedRows(km), 0);
      var i := 0;
      while i * PGSIZE < sz
        invariant 0 <= i <= Up(sz) && d2 in dirs && Good(S()) && Copied(s, S(), d, d2, i, km)
        invariant Left(|free|, free1, Tables(S(), d2), SpannedRows(km), 0, i) && PagesBelow(s, d, i)
      {
        CopiedKeeps(s, S(), d, d2, i, km);
        ParentEntry(s, S(), d, d2, i, km);
        var there := Present(d, i);
        if !there {
          CopyEnough(km, |free|, |s.free|, Tables(S(), d2), i);
          return d2, true;
        }
        PageBelow(s, d, i);
        ghost var t := S();
        var ok := CopyPage(d, d2, i, s, km);
        if !ok {
          CopyNotEnough(km, |t.free|, |s.free|, Tables(t, d2), i);
          ghost var w := S();
          Freevm(d2);
          CreateThenFree(s, w, S(), d2);
          return 0, false;
        }
        LeftStep(|t.free|, |free|, free1, Tables(t, d2), Tables(S(), d2), SpannedRows(km), 0, i);
        i := i + 1;
      }
      CopyEnough(km, |free|, |s.free|, Tables(S(), d2), i);
    }

    /** copyuvm's two tests: the page table and the page are there. */
    method Present(d: nat, v: nat) returns (there: bool)
      requires Good(S()) && d in dirs && v < UVPAGES
      ensures there <==> Pte(S(), d, v).Entry?
    {
      HasItsTable(S(), d, v);
      if mem[d].entries[v / NENTRIES].NoEntry? {
        return false;
      }
      var e := ReadPte(d, v);
      return e.Entry?;
    }
  }
}
