/**
 What the operations on one address space leave alone, and how single steps (take a frame, add a page
 table, map or unmap a page) add up to whole operations.
 */
module VmSteps {
  import opened VmSpace

  /** Frame `f` is directory `d` itself, one of its page tables or one of its user pages. */
  predicate Belongs(s: Vm, f: nat, d: nat) {
    f in s.owner && (f == d || match s.owner[f]
                               case AsDir => false
                               case AsTable(e, _) => e == d
                               case AsUser(e, _) => e == d
                               case Other => false)
  }

  /**
   From `s` to `t` only address space `d` (and the frames in `hand`) changed: everybody else's frames keep their
   use and contents, frames newly in use belong to `d`, and no frame is lost.
   */
  ghost predicate Keeps(s: Vm, t: Vm, d: nat, hand: set<nat>) {
    && t.dirs - {d} == s.dirs - {d}
    && Frames(t) == Frames(s)
    && (forall f :: f in s.owner && f !in hand && !Belongs(s, f, d) ==>
          f in t.owner && t.owner[f] == s.owner[f] && f in s.mem && f in t.mem && t.mem[f] == s.mem[f])
    && (forall f :: f in t.owner && f !in s.owner && f !in hand ==> Belongs(t, f, d))
    && (forall f :: f in s.owner && f in t.owner && f !in hand && Belongs(s, f, d) ==> Belongs(t, f, d))
  }

  lemma KeepsTrans(s: Vm, t: Vm, u: Vm, d: nat, hand: set<nat>)
    requires Keeps(s, t, d, hand) && Keeps(t, u, d, hand)
    ensures Keeps(s, u, d, hand)
  {
    assert forall f :: f in s.owner && f !in hand && !Belongs(s, f, d) ==> !Belongs(t, f, d);
  }

  lemma KeepsWiden(s: Vm, t: Vm, d: nat, hand: set<nat>, hand': set<nat>)
    requires Keeps(s, t, d, hand) && hand <= hand'
    ensures Keeps(s, t, d, hand')
  {
  }

  /** A frame taken from the free list may leave the hand once it belongs to `d` or is free again. */
  lemma KeepsDrop(s: Vm, t: Vm, d: nat, f: nat)
    requires Keeps(s, t, d, {f}) && f !in s.owner && (f in t.owner ==> Belongs(t, f, d))
    ensures Keeps(s, t, d, {})
  {
  }

  lemma NotMine(s: Vm, d: nat, d': nat, v: nat)
    requires Good(s) && d' in s.dirs && d' != d && (d in s.dirs || d !in s.owner)
    ensures !Belongs(s, d', d)
    ensures Pde(s, d', v).Entry? ==> !Belongs(s, Pde(s, d', v).frame, d)
    ensures v < UVPAGES && Pte(s, d', v).Entry? ==> !Belongs(s, Pte(s, d', v).frame, d)
  {
  }

  /** Everybody else's address space is the same. */
  lemma KeepsOthers(s: Vm, t: Vm, d: nat, d': nat, v: nat)
    requires Good(s) && Keeps(s, t, d, {}) && d' in s.dirs && d' != d && (d in s.dirs || d !in s.owner)
    ensures d' in t.dirs && Pde(t, d', v) == Pde(s, d', v) && SamePage(s, t, d', v)
  {
    assert d' in t.dirs by { assert d' in s.dirs - {d}; }
    NotMine(s, d, d', v);
    NotMine(s, d, d', v / NENTRIES);
    assert Pde(t, d', v / NENTRIES) == Pde(s, d', v / NENTRIES);
  }

  /** Directory `d`'s mapping and the contents of its user pages are the same. */
  ghost predicate SameSpace(s: Vm, t: Vm, d: nat) {
    forall v :: 0 <= v < VPAGES ==> SamePage(s, t, d, v)
  }

  predicate SamePage(s: Vm, t: Vm, d: nat, v: nat) {
    && Pte(t, d, v) == Pte(s, d, v)
    && (v < UVPAGES && Pte(s, d, v).Entry? ==>
          var f := Pte(s, d, v).frame; f in s.mem && f in t.mem && t.mem[f] == s.mem[f])
  }

  // ---------------------------------------------------------------- single steps

  lemma PopKeeps(s: Vm, d: nat)
    requires Good(s) && s.free != [] && d in s.dirs
    ensures Keeps(s, Pop(s), d, {s.free[0]})
    ensures SameSpace(s, Pop(s), d)
  {
    PopGood(s);
    SameTablesAll(s, Pop(s));
  }

  lemma PushKeeps(s: Vm, d: nat, f: nat)
    requires Good(s) && Spare(s, f) && d in s.dirs
    ensures Keeps(s, Push(s, f), d, {f})
    ensures SameSpace(s, Push(s, f), d)
  {
    PushGood(s, f);
    SameTablesAll(s, Push(s, f));
  }

  lemma AddTableKeeps(s: Vm, d: nat, x: nat, f: nat)
    requires Good(s) && d in s.dirs && x < NENTRIES && Spare(s, f) && Pde(s, d, x).NoEntry?
    ensures Keeps(s, AddTable(s, d, x, f), d, {f})
    ensures SameSpace(s, AddTable(s, d, x, f), d)
  {
    AddTableGood(s, d, x, f);
    forall v | 0 <= v < VPAGES ensures SamePage(s, AddTable(s, d, x, f), d, v) {
      AddTableEntries(s, d, x, f, d, x, v);
    }
  }

  /** walkpgdir with allocation: a frame from the free list becomes a page table. */
  function NewTable(s: Vm, d: nat, x: nat): Vm
    requires s.free != [] && IsTable(s, d) && x < NENTRIES
  {
    AddTable(Pop(s), d, x, s.free[0])
  }

  lemma NewTableKeeps(s: Vm, d: nat, x: nat)
    requires Good(s) && d in s.dirs && s.free != [] && x < NENTRIES && Pde(s, d, x).NoEntry?
    ensures var t := NewTable(s, d, x);
            && Good(t) && Keeps(s, t, d, {}) && SameSpace(s, t, d)
            && Pde(t, d, x) == Entry(s.free[0], PDEFLAGS) && IsTable(t, s.free[0])
            && d in t.dirs
  {
    var f := s.free[0];
    var p := Pop(s);
    PopGood(s);
    PopKeeps(s, d);
    SameTablesEntries(s, p, d, x);
    AddTableGood(p, d, x, f);
    AddTableKeeps(p, d, x, f);
    AddTableEntries(p, d, x, f, d, x, 0);
    KeepsTrans(s, p, AddTable(p, d, x, f), d, {f});
    KeepsDrop(s, AddTable(p, d, x, f), d, f);
    SameSpaceTrans(s, p, AddTable(p, d, x, f), d);
  }

  lemma SameSpaceTrans(s: Vm, t: Vm, u: Vm, d: nat)
    requires SameSpace(s, t, d) && SameSpace(t, u, d)
    ensures SameSpace(s, u, d)
  {
    forall v | 0 <= v < VPAGES ensures SamePage(s, u, d, v) {
      assert SamePage(s, t, d, v) && SamePage(t, u, d, v);
    }
  }

  /** Store bytes in a spare frame. */
  function Fill(s: Vm, f: nat, bytes: seq<int>): Vm {
    s.(mem := s.mem[f := Bytes(bytes)])
  }

  lemma FillGood(s: Vm, d: nat, f: nat, bytes: seq<int>)
    requires Good(s) && Spare(s, f) && d in s.dirs
    ensures Good(Fill(s, f, bytes)) && Keeps(s, Fill(s, f, bytes), d, {f}) && SameSpace(s, Fill(s, f, bytes), d)
    ensures Spare(Fill(s, f, bytes), f)
  {
    assert SameTables(s, Fill(s, f, bytes));
    SameTablesAll(s, Fill(s, f, bytes));
  }

  lemma OnePteKeeps(s: Vm, d: nat, v: nat, e: Entry)
    requires Good(s) && d in s.dirs && HasTable(s, d, v)
    ensures Keeps(s, SetPte(s, d, v, e), d, {})
    ensures forall v' :: 0 <= v' < VPAGES && v' != v ==> SamePage(s, SetPte(s, d, v, e), d, v')
  {
    var t := SetPte(s, d, v, e);
    SetPteOne(s, d, v, e);
    assert Belongs(s, Pde(s, d, v / NENTRIES).frame, d);
    forall v' | 0 <= v' < VPAGES && v' != v ensures SamePage(s, t, d, v') {
      if v' < UVPAGES && Pte(s, d, v').Entry? {
        var f := Pte(s, d, v').frame;
        assert f in s.owner && s.owner[f] == AsUser(d, v');
      }
    }
  }

  /** Page `v` of `d` is now `e`, whose frame holds `page`; all other pages of `d` are as before. */
  ghost predicate NewPage(s: Vm, t: Vm, d: nat, v: nat, e: Entry, page: Page) {
    && d in t.dirs && Pte(t, d, v) == e && e.Entry? && e.frame in t.mem && t.mem[e.frame] == page
    && (forall v' :: 0 <= v' < VPAGES && v' != v ==> SamePage(s, t, d, v'))
  }

  lemma MapUserKeeps(s: Vm, d: nat, v: nat, f: nat, flags: nat)
    requires Good(s) && d in s.dirs && v < UVPAGES && HasTable(s, d, v) && Pte(s, d, v).NoEntry?
    requires Spare(s, f) && s.mem[f].Bytes?
    ensures var t := MapUser(s, d, v, f, flags);
            Good(t) && Keeps(s, t, d, {f}) && NewPage(s, t, d, v, Entry(f, flags), s.mem[f]) && Belongs(t, f, d)
  {
    var t0 := SetPte(s, d, v, Entry(f, flags));
    var t := MapUser(s, d, v, f, flags);
    MapUserGood(s, d, v, f, flags);
    OnePteKeeps(s, d, v, Entry(f, flags));
    forall v' | 0 <= v' < VPAGES && v' != v ensures SamePage(s, t, d, v') {
      assert SamePage(s, t0, d, v');
      assert Pte(t, d, v') == Pte(t0, d, v');
    }
  }

  /** A page unmapped and its frame put back on the free list. */
  function Release(s: Vm, d: nat, v: nat): Vm
    requires HasTable(s, d, v) && Pte(s, d, v).Entry?
  {
    Push(UnmapUser(s, d, v), Pte(s, d, v).frame)
  }

  lemma ReleaseKeeps(s: Vm, d: nat, v: nat)
    requires Good(s) && d in s.dirs && v < UVPAGES && HasTable(s, d, v) && Pte(s, d, v).Entry?
    ensures var t := Release(s, d, v);
            && Good(t) && Keeps(s, t, d, {}) && d in t.dirs
            && Pte(t, d, v).NoEntry? && t.owner == s.owner - {Pte(s, d, v).frame}
            && (forall v' :: 0 <= v' < VPAGES && v' != v ==> SamePage(s, t, d, v'))
  {
    hide Good, Keeps, OnePte, Frames, HasTable, Belongs;
    var f := Pte(s, d, v).frame;
    var u := UnmapUser(s, d, v);
    UnmapKeeps(s, d, v);
    UnmapUserGood(s, d, v);
    PushGood(u, f);
    PushKeeps(u, d, f);
    ReleasedKeeps(s, u, d, v, f);
    assert SamePage(u, Push(u, f), d, v);
    forall v' | 0 <= v' < VPAGES && v' != v ensures SamePage(s, Push(u, f), d, v') {
      assert SamePage(s, u, d, v') && SamePage(u, Push(u, f), d, v');
    }
  }

  /** Unmapping leaves the other pages alone; the frame in hand belonged to `d`. */
  lemma UnmapKeeps(s: Vm, d: nat, v: nat)
    requires Good(s) && d in s.dirs && v < UVPAGES && HasTable(s, d, v) && Pte(s, d, v).Entry?
    ensures var u, f := UnmapUser(s, d, v), Pte(s, d, v).frame;
            && Keeps(s, u, d, {f}) && f in s.owner && Belongs(s, f, d) && Pte(u, d, v).NoEntry?
            && (forall v' :: 0 <= v' < VPAGES && v' != v ==> SamePage(s, u, d, v'))
  {
    var u0, u := SetPte(s, d, v, NoEntry), UnmapUser(s, d, v);
    OnePteKeeps(s, d, v, NoEntry);
    UnmapUserGood(s, d, v);
    forall v' | 0 <= v' < VPAGES && v' != v ensures SamePage(s, u, d, v') {
      assert SamePage(s, u0, d, v') && Pte(u, d, v') == Pte(u0, d, v');
    }
  }

  lemma ReleasedKeeps(s: Vm, u: Vm, d: nat, v: nat, f: nat)
    requires Keeps(s, u, d, {f}) && Keeps(u, Push(u, f), d, {f}) && f in s.owner && Belongs(s, f, d)
    ensures Keeps(s, Push(u, f), d, {})
  {
    hide Frames;
  }

  // ---------------------------------------------------------------- whole ranges

  function ZeroBytes(): seq<int> {
    seq(4096, _ => 0)
  }

  predicate ZeroPageAt(t: Vm, d: nat, v: nat) {
    var e := Pte(t, d, v);
    e.Entry? && e.flags == PDEFLAGS && e.frame in t.mem && t.mem[e.frame] == Bytes(ZeroBytes())
  }

  /** Pages lo..hi of `d` are new, zeroed, writable user pages; every other page is as before. */
  ghost predicate Grown(s: Vm, t: Vm, d: nat, lo: nat, hi: nat, hand: set<nat>) {
    && Good(t) && Keeps(s, t, d, hand) && d in t.dirs && s.owner.Keys <= t.owner.Keys
    && (forall v :: 0 <= v < VPAGES ==> if lo <= v < hi then ZeroPageAt(t, d, v) else SamePage(s, t, d, v))
  }

  lemma GrownNothing(s: Vm, d: nat, lo: nat)
    requires Good(s) && d in s.dirs
    ensures Grown(s, s, d, lo, lo, {})
  {
  }

  lemma GrownStep(s: Vm, t: Vm, u: Vm, d: nat, lo: nat, v: nat, f: nat)
    requires Grown(s, t, d, lo, v, {}) && lo <= v < UVPAGES && t.owner.Keys <= u.owner.Keys
    requires Good(u) && Keeps(t, u, d, {}) && NewPage(t, u, d, v, Entry(f, PDEFLAGS), Bytes(ZeroBytes()))
    ensures Grown(s, u, d, lo, v + 1, {})
  {
    hide Good, Keeps, Pte, ZeroBytes;
    KeepsTrans(s, t, u, d, {});
    forall w | 0 <= w < VPAGES ensures if lo <= w < v + 1 then ZeroPageAt(u, d, w) else SamePage(s, u, d, w) {
      if w != v {
        assert SamePage(t, u, d, w);
        assert if lo <= w < v then ZeroPageAt(t, d, w) else SamePage(s, t, d, w);
      }
    }
  }

  lemma GrownSame(s: Vm, t: Vm, u: Vm, d: nat, lo: nat, v: nat, hand: set<nat>)
    requires Grown(s, t, d, lo, v, {}) && v <= UVPAGES && t.owner.Keys <= u.owner.Keys
    requires Good(u) && Keeps(t, u, d, hand) && SameSpace(t, u, d) && d in u.dirs
    ensures Grown(s, u, d, lo, v, hand)
  {
    hide Good, Keeps, Pte, ZeroBytes;
    KeepsWiden(s, t, d, {}, hand);
    KeepsTrans(s, t, u, d, hand);
    forall w | 0 <= w < VPAGES ensures if lo <= w < v then ZeroPageAt(u, d, w) else SamePage(s, u, d, w) {
      assert SamePage(t, u, d, w);
      assert if lo <= w < v then ZeroPageAt(t, d, w) else SamePage(s, t, d, w);
    }
  }

  predicate UserIn(u: Use, d: nat, lo: nat, hi: nat) {
    u.AsUser? && u.d == d && lo <= u.v < hi
  }

  function Without(owner: map<nat, Use>, d: nat, lo: nat, hi: nat): map<nat, Use> {
    map f | f in owner && !UserIn(owner[f], d, lo, hi) :: owner[f]
  }

  /** Pages lo..hi of `d` are unmapped and exactly their frames are free; every other page is as before. */
  ghost predicate Shrunk(s: Vm, t: Vm, d: nat, lo: nat, hi: nat) {
    && Good(t) && Keeps(s, t, d, {}) && d in t.dirs
    && (forall v :: 0 <= v < VPAGES ==> if lo <= v < hi then Pte(t, d, v).NoEntry? else SamePage(s, t, d, v))
    && t.owner == Without(s.owner, d, lo, hi)
  }

  lemma ShrunkNothing(s: Vm, d: nat, lo: nat)
    requires Good(s) && d in s.dirs
    ensures Shrunk(s, s, d, lo, lo)
  {
  }

  lemma ShrunkStep(s: Vm, t: Vm, d: nat, lo: nat, v: nat)
    requires Good(s) && d in s.dirs
    requires Shrunk(s, t, d, lo, v) && lo <= v < UVPAGES && HasTable(t, d, v) && Pte(t, d, v).Entry?
    ensures Shrunk(s, Release(t, d, v), d, lo, v + 1)
  {
    var u := Release(t, d, v);
    ReleaseKeeps(t, d, v);
    KeepsTrans(s, t, u, d, {});
    forall w | 0 <= w < VPAGES ensures if lo <= w < v + 1 then Pte(u, d, w).NoEntry? else SamePage(s, u, d, w) {
      if w != v {
        assert SamePage(t, u, d, w);
      }
    }
    ReleasedOwner(s, t, d, lo, v);
  }

  lemma ReleasedOwner(s: Vm, t: Vm, d: nat, lo: nat, v: nat)
    requires Good(s) && Good(t) && d in s.dirs && d in t.dirs && t.owner == Without(s.owner, d, lo, v) && lo <= v < UVPAGES
    requires Pte(t, d, v).Entry?
    ensures t.owner - {Pte(t, d, v).frame} == Without(s.owner, d, lo, v + 1)
  {
    var f := Pte(t, d, v).frame;
    assert f in t.owner && t.owner[f] == AsUser(d, v);
    forall g | g in t.owner && UserIn(t.owner[g], d, lo, v + 1) ensures g == f {
      assert t.owner[g] == AsUser(d, v);
    }
  }

  /** Pages that are not mapped can be skipped, one by one or a whole page table at a time. */
  lemma ShrunkSkip(s: Vm, t: Vm, d: nat, lo: nat, v: nat, hi: nat)
    requires Shrunk(s, t, d, lo, v) && lo <= v <= hi <= UVPAGES
    requires forall w :: v <= w < hi ==> Pte(t, d, w).NoEntry?
    ensures Shrunk(s, t, d, lo, hi)
  {
    forall g | g in t.owner ensures !UserIn(t.owner[g], d, lo, hi) {
    }
  }

  /** Growing and then shrinking over a range that was empty restores the address space. */
  lemma ShrinkUndoesGrow(s: Vm, t: Vm, u: Vm, d: nat, lo: nat, v: nat, hi: nat, hand: set<nat>)
    requires Grown(s, t, d, lo, v, hand) && Shrunk(t, u, d, lo, hi) && v <= hi
    requires forall w :: lo <= w < hi ==> Pte(s, d, w).NoEntry?
    ensures Good(u) && Keeps(s, u, d, hand) && d in u.dirs && SameSpace(s, u, d)
  {
    hide Good, Keeps, Pte, ZeroPageAt;
    KeepsWiden(t, u, d, {}, hand);
    KeepsTrans(s, t, u, d, hand);
    forall w | 0 <= w < VPAGES ensures SamePage(s, u, d, w) {
      if !(lo <= w < hi) {
        assert SamePage(s, t, d, w) && SamePage(t, u, d, w);
      }
    }
  }
}
