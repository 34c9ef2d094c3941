/**
 Creating and destroying address spaces: the books when a directory is made from a free frame and when
 all its frames go back.
 */
module VmLife {
  import opened VmSpace
  import opened VmSteps

  // ---------------------------------------------------------------- destruction

  /** Directory `d` is given up: its own frames are spare. */
  function Abandon(t: Vm, d: nat): Vm {
    t.(dirs := t.dirs - {d}, owner := map f | f in t.owner :: if Belongs(t, f, d) then Other else t.owner[f])
  }

  lemma AbandonEntries(t: Vm, d: nat)
    ensures forall d', x :: Pde(Abandon(t, d), d', x) == Pde(t, d', x)
    ensures forall d', v :: Pte(Abandon(t, d), d', v) == Pte(t, d', v)
  {
  }

  lemma AbandonGood(t: Vm, d: nat)
    requires Good(t) && d in t.dirs
    requires forall v :: 0 <= v < UVPAGES ==> Pte(t, d, v).NoEntry?
    ensures Good(Abandon(t, d)) && Frames(Abandon(t, d)) == Frames(t)
  {
    var a := Abandon(t, d);
    AbandonEntries(t, d);
    assert forall f :: IsTable(a, f) <==> IsTable(t, f);
  }

  /** The books of everybody but `d`. */
  function OthersOwner(s: Vm, d: nat): map<nat, Use> {
    map f | f in s.owner && !Belongs(s, f, d) :: s.owner[f]
  }

  /** Directory `d` is gone, exactly its own frames are free again, nobody else's changed. */
  ghost predicate Freed(s: Vm, t: Vm, d: nat) {
    && Good(t) && t.dirs == s.dirs - {d} && Frames(t) == Frames(s)
    && t.owner == OthersOwner(s, d)
    && (forall f :: f in t.owner ==> f in s.mem && f in t.mem && t.mem[f] == s.mem[f])
  }

  /** Page table `x` of `d` is among those freevm's loop has freed. */
  predicate TableBelow(u: Use, d: nat, x: nat) {
    u.AsTable? && u.d == d && u.x < x
  }

  /** The loop of freevm over the directory entries, after `x` of them. */
  ghost predicate Freeing(t: Vm, c: Vm, d: nat, x: nat) {
    && Good(c) && c.dirs == t.dirs - {d} && Frames(c) == Frames(t)
    && c.owner.Keys == (set f | f in t.owner && !TableBelow(t.owner[f], d, x))
    && (forall f :: f in c.owner ==> f in t.mem && f in c.mem && c.mem[f] == t.mem[f])
    && (forall f :: f in c.owner ==> c.owner[f] == if Belongs(t, f, d) then Other else t.owner[f])
  }

  lemma FreeingStarts(t: Vm, d: nat)
    requires Good(t) && d in t.dirs && forall v :: 0 <= v < UVPAGES ==> Pte(t, d, v).NoEntry?
    ensures Freeing(t, Abandon(t, d), d, 0)
  {
    AbandonGood(t, d);
  }

  lemma TableUnique(t: Vm, d: nat, x: nat)
    requires Good(t) && d in t.dirs && x < NENTRIES && Pde(t, d, x).Entry?
    ensures var f := Pde(t, d, x).frame; f in t.owner && t.owner[f] == AsTable(d, x)
    ensures forall g :: g in t.owner && t.owner[g] == AsTable(d, x) ==> g == Pde(t, d, x).frame
  {
  }

  lemma UseBounds(s: Vm)
    requires Good(s)
    ensures forall f :: f in s.owner && s.owner[f].AsTable? ==> s.owner[f].x < NENTRIES
    ensures forall f :: f in s.owner && s.owner[f].AsUser? ==> s.owner[f].v < UVPAGES
  {
  }

  lemma FreeingStep(t: Vm, c: Vm, d: nat, x: nat)
    requires Good(t) && d in t.dirs && x < NENTRIES && Freeing(t, c, d, x) && Pde(t, d, x).Entry?
    ensures Spare(c, Pde(t, d, x).frame) && Freeing(t, Push(c, Pde(t, d, x).frame), d, x + 1)
  {
    hide Good, Pde;
    var f := Pde(t, d, x).frame;
    TableUnique(t, d, x);
    PushGood(c, f);
    var u := Push(c, f);
    forall g | g in t.owner && TableBelow(t.owner[g], d, x + 1) && !TableBelow(t.owner[g], d, x) ensures g == f {
      assert t.owner[g] == AsTable(d, x);
    }
    assert u.owner.Keys == (set g | g in t.owner && !TableBelow(t.owner[g], d, x + 1));
  }

  lemma FreeingSkip(t: Vm, c: Vm, d: nat, x: nat)
    requires Good(t) && d in t.dirs && x < NENTRIES && Freeing(t, c, d, x) && Pde(t, d, x).NoEntry?
    ensures Freeing(t, c, d, x + 1)
  {
    forall g | g in t.owner && TableBelow(t.owner[g], d, x + 1) ensures TableBelow(t.owner[g], d, x) {
      assert Pde(t, d, t.owner[g].x).Entry?;
    }
    assert (set f | f in t.owner && !TableBelow(t.owner[f], d, x)) == (set f | f in t.owner && !TableBelow(t.owner[f], d, x + 1));
  }

  lemma FreeingEnds(s: Vm, t: Vm, c: Vm, d: nat)
    requires Good(s) && Good(t) && d in s.dirs && Shrunk(s, t, d, 0, UVPAGES) && Freeing(t, c, d, NENTRIES)
    ensures Spare(c, d) && Freed(s, Push(c, d), d)
  {
    assert t.owner[d] == AsDir;
    var u := Push(c, d);
    PushGood(c, d);
    OwnersLeft(s, t, c, d);
    forall f | f in u.owner ensures f in s.mem && f in u.mem && u.mem[f] == s.mem[f] {
      assert f in s.owner && !Belongs(s, f, d);
    }
  }

  lemma OwnerLeft(s: Vm, t: Vm, c: Vm, d: nat, f: nat)
    requires Good(s) && t.owner == Without(s.owner, d, 0, UVPAGES) && Freeing(t, c, d, NENTRIES) && f != d
    ensures f in c.owner <==> f in s.owner && !Belongs(s, f, d)
    ensures f in c.owner ==> c.owner[f] == s.owner[f]
  {
    UseBounds(s);
    hide Good, Frames;
    assert f in c.owner <==> f in t.owner && !TableBelow(t.owner[f], d, NENTRIES);
    if f in t.owner {
      assert f in s.owner && s.owner[f] == t.owner[f];
    }
  }

  lemma OwnersLeft(s: Vm, t: Vm, c: Vm, d: nat)
    requires Good(s) && t.owner == Without(s.owner, d, 0, UVPAGES) && Freeing(t, c, d, NENTRIES)
    ensures c.owner - {d} == OthersOwner(s, d)
  {
    hide Good, Freeing, Without;
    forall f | f != d
      ensures f in c.owner <==> f in s.owner && !Belongs(s, f, d)
      ensures f in c.owner ==> c.owner[f] == s.owner[f]
    {
      OwnerLeft(s, t, c, d, f);
    }
    assert forall f :: Belongs(s, f, d) ==> f in s.owner;
    assert d !in OthersOwner(s, d);
  }

  // ---------------------------------------------------------------- creation

  /** A free frame becomes an empty page directory. */
  function NewDir(s: Vm): Vm
    requires s.free != []
  {
    var d := s.free[0];
    Vm(s.free[1..], s.mem[d := EmptyTable()], s.dirs + {d}, s.owner[d := AsDir])
  }

  lemma NewDirEntries(s: Vm, d': nat, x: nat, v: nat)
    requires Good(s) && s.free != [] && d' in NewDir(s).dirs
    ensures Pde(NewDir(s), d', x) == if d' == s.free[0] then NoEntry else Pde(s, d', x)
    ensures Pte(NewDir(s), d', v) == if d' == s.free[0] then NoEntry else Pte(s, d', v)
  {
    var t := NewDir(s);
    if d' != s.free[0] {
      assert d' in s.owner;
      assert Pde(t, d', v / NENTRIES) == Pde(s, d', v / NENTRIES);
    }
  }

  lemma NewDirGood(s: Vm)
    requires Good(s) && s.free != []
    ensures Good(NewDir(s)) && Keeps(s, NewDir(s), s.free[0], {}) && s.free[0] !in s.owner && s.free[0] !in s.dirs
  {
    var t := NewDir(s);
    assert s.free == [s.free[0]] + s.free[1..];
    forall d', x | d' in t.dirs ensures Pde(t, d', x) == if d' == s.free[0] then NoEntry else Pde(s, d', x) {
      NewDirEntries(s, d', x, 0);
    }
    forall d', v | d' in t.dirs ensures Pte(t, d', v) == if d' == s.free[0] then NoEntry else Pte(s, d', v) {
      NewDirEntries(s, d', 0, v);
    }
    NewDirBooks(s);
  }

  lemma NewDirBooks(s: Vm)
    requires Good(s) && s.free != []
    ensures var t := NewDir(s);
            && s.free[0] !in s.owner && s.free[0] !in s.dirs && FreeOk(t) && Keeps(s, t, s.free[0], {})
            && (forall f :: IsTable(s, f) ==> IsTable(t, f))
  {
    TailFree(s.free);
    assert Frames(NewDir(s)) == Frames(s);
  }

  /** The books and every frame in use are as they were; the free list holds the same frames. */
  ghost predicate Restored(s: Vm, t: Vm) {
    && Good(t) && t.dirs == s.dirs && t.owner == s.owner && Frames(t) == Frames(s)
    && (forall f :: f in s.owner ==> f in s.mem && f in t.mem && t.mem[f] == s.mem[f])
  }

  lemma NothingYet(s: Vm, d: nat)
    requires Good(s) && d !in s.owner && d !in s.dirs
    ensures forall f :: f in s.owner ==> !Belongs(s, f, d)
  {
  }

  /** Creating a directory, changing only it, and destroying it again restores everything. */
  lemma CreateThenFree(s: Vm, w: Vm, t: Vm, d: nat)
    requires Good(s) && d !in s.owner && d !in s.dirs && Keeps(s, w, d, {}) && d in w.dirs && Freed(w, t, d)
    ensures Restored(s, t)
  {
    hide Good, Frames;
    NothingYet(s, d);
    assert s.dirs - {d} == s.dirs;
    forall f | f in s.owner ensures f in t.owner && t.owner[f] == s.owner[f] && f in s.mem && t.mem[f] == s.mem[f] {
      assert f in w.owner && w.owner[f] == s.owner[f] && !Belongs(w, f, d);
    }
    forall f | f in t.owner ensures f in s.owner {
      assert f in w.owner && !Belongs(w, f, d);
    }
  }

  lemma {:induction false} RestoredFreeList(s: Vm, t: Vm)
    requires Good(s) && Restored(s, t)
    ensures (set f | f in t.free) == (set f | f in s.free)
  {
    forall f ensures f in t.free <==> f in s.free {
      assert f in Frames(t) <==> f in Frames(s);
    }
  }

  // ---------------------------------------------------------------- the kernel half

  /** One row of kmap[]: `n` pages from virtual page `v` onto frames from `frame` on. */
  datatype Kmap = Kmap(v: nat, n: nat, frame: nat, perm: nat)

  predicate GoodKmap(km: seq<Kmap>) {
    && (forall k :: 0 <= k < |km| ==> UVPAGES <= km[k].v && 0 < km[k].n && km[k].v + km[k].n <= VPAGES)
    && (forall k, l :: 0 <= k < l < |km| ==> km[k].v + km[k].n <= km[l].v || km[l].v + km[l].n <= km[k].v)
  }

  /** The entry a kernel map gives page `v`. */
  function KernEntry(km: seq<Kmap>, v: nat): Entry {
    if km == [] then NoEntry
    else
      var k := km[|km| - 1];
      if k.v <= v < k.v + k.n then Entry(k.frame + (v - k.v), k.perm) else KernEntry(km[..|km| - 1], v)
  }

  lemma {:induction false} KernEntryBelow(km: seq<Kmap>, v: nat)
    requires GoodKmap(km) && v < UVPAGES
    ensures KernEntry(km, v).NoEntry?
    decreases |km|
  {
    if km != [] {
      KernEntryBelow(km[..|km| - 1], v);
    }
  }

  /** A page in one of the rows has the frame of that row for it and the row's permissions; any other page has none. */
  lemma {:induction false} KernEntryExactly(km: seq<Kmap>, v: nat)
    requires GoodKmap(km)
    ensures forall j :: 0 <= j < |km| && km[j].v <= v < km[j].v + km[j].n ==>
              KernEntry(km, v) == Entry(km[j].frame + (v - km[j].v), km[j].perm)
    ensures (forall j :: 0 <= j < |km| ==> v < km[j].v || v >= km[j].v + km[j].n) ==> KernEntry(km, v).NoEntry?
    decreases |km|
  {
    if km != [] {
      KernEntryExactly(km[..|km| - 1], v);
    }
  }

  lemma {:induction false} KernEntryOutside(km: seq<Kmap>, j: nat, v: nat)
    requires GoodKmap(km) && j < |km| && km[j].v <= v < km[j].v + km[j].n
    ensures KernEntry(km[..j], v).NoEntry?
    decreases j
  {
    KernOutside(km, j, j, v);
  }

  lemma {:induction false} KernOutside(km: seq<Kmap>, i: nat, j: nat, v: nat)
    requires GoodKmap(km) && i <= j < |km| && km[j].v <= v < km[j].v + km[j].n
    ensures KernEntry(km[..i], v).NoEntry?
    decreases i
  {
    if i > 0 {
      assert km[..i][..i - 1] == km[..i - 1];
      KernOutside(km, i - 1, j, v);
    }
  }

  /** Directory `d` maps exactly what `km` and the first `i` pages of row `k` say. */
  ghost predicate KernelHalf(t: Vm, d: nat, km: seq<Kmap>, k: Kmap, i: nat) {
    forall v :: 0 <= v < VPAGES ==>
      Pte(t, d, v) == if k.v <= v < k.v + i then Entry(k.frame + (v - k.v), k.perm) else KernEntry(km, v)
  }

  /** Directory `d` maps exactly what `km` says, and no user page. */
  ghost predicate KernelOnly(t: Vm, d: nat, km: seq<Kmap>) {
    forall v :: 0 <= v < VPAGES ==> Pte(t, d, v) == KernEntry(km, v)
  }

  lemma KernelRowDone(t: Vm, d: nat, km: seq<Kmap>, j: nat)
    requires j < |km| && KernelHalf(t, d, km[..j], km[j], km[j].n)
    ensures KernelOnly(t, d, km[..j + 1])
  {
    assert km[..j + 1][..j] == km[..j];
  }
}
