/**
 Physical frames and two-level page tables as values: who owns each frame, and what installing or
 removing one entry does to every address space.
 */
module VmSpace {

  const NENTRIES := 1024
  /** Page number of KERNBASE; smaller page numbers are user memory. */
  const UVPAGES := 0x80000
  const VPAGES := 0x100000

  datatype Entry = NoEntry | Entry(frame: nat, flags: nat)

  /** Contents of a frame: a page directory or page table, or bytes. */
  datatype Page = Table(entries: seq<Entry>) | Bytes(bytes: seq<int>)

  /** What an allocated frame is used for. */
  datatype Use = AsDir | AsTable(d: nat, x: nat) | AsUser(d: nat, v: nat) | Other

  datatype Vm = Vm(free: seq<nat>, mem: map<nat, Page>, dirs: set<nat>, owner: map<nat, Use>)

  predicate IsTable(s: Vm, f: nat) {
    f in s.mem && s.mem[f].Table? && |s.mem[f].entries| == NENTRIES
  }

  /** Page-directory entry `x` of directory `d`. */
  function Pde(s: Vm, d: nat, x: nat): Entry {
    if IsTable(s, d) && x < NENTRIES then s.mem[d].entries[x] else NoEntry
  }

  /** The entry the paging hardware finds for page `v`. */
  function Pte(s: Vm, d: nat, v: nat): Entry {
    var e := Pde(s, d, v / NENTRIES);
    if e.Entry? && IsTable(s, e.frame) then s.mem[e.frame].entries[v % NENTRIES] else NoEntry
  }

  predicate NoRepeats(free: seq<nat>) {
    forall i, j :: 0 <= i < j < |free| ==> free[i] != free[j]
  }

  /** The free list holds each free frame once, and nothing that is in use. */
  predicate FreeOk(s: Vm) {
    && NoRepeats(s.free)
    && (forall f :: f in s.free ==> f in s.mem && f !in s.owner && f != 0)
  }

  /** Directories, tables and user pages reached from a directory are recorded as such. */
  ghost predicate TablesOwned(s: Vm) {
    && (forall d :: d in s.dirs ==> IsTable(s, d) && d in s.owner && s.owner[d] == AsDir)
    && (forall d, x :: d in s.dirs && 0 <= x < NENTRIES && Pde(s, d, x).Entry? ==>
          var t := Pde(s, d, x).frame; IsTable(s, t) && t in s.owner && s.owner[t] == AsTable(d, x))
    // The permissions of a directory entry are generous: the page-table entries decide.
    && (forall d, x :: d in s.dirs && 0 <= x < NENTRIES && Pde(s, d, x).Entry? ==>
          Pde(s, d, x).flags / 2 % 2 == 1 && Pde(s, d, x).flags / 4 % 2 == 1)
    && (forall d, v :: d in s.dirs && 0 <= v < UVPAGES && Pte(s, d, v).Entry? ==>
          var f := Pte(s, d, v).frame; f in s.owner && s.owner[f] == AsUser(d, v))
  }

  /** Every recorded use is real. */
  ghost predicate UsesReal(s: Vm) {
    forall f :: f in s.owner ==>
      && f in s.mem && f != 0
      && match s.owner[f]
         case AsDir => f in s.dirs
         case AsTable(d, x) => d in s.dirs && x < NENTRIES && Pde(s, d, x).Entry? && Pde(s, d, x).frame == f
         case AsUser(d, v) => d in s.dirs && v < UVPAGES && Pte(s, d, v).Entry? && Pte(s, d, v).frame == f && s.mem[f].Bytes?
         case Other => true
  }

  ghost predicate Good(s: Vm) {
    FreeOk(s) && TablesOwned(s) && UsesReal(s)
  }

  /** All frames the allocator manages: on the free list or in use. */
  function Frames(s: Vm): set<nat> {
    (set f | f in s.free) + s.owner.Keys
  }

  // ---------------------------------------------------------------- kalloc and kfree

  function JUNK(): seq<int> {
    seq(4096, _ => 1)
  }

  function Pop(s: Vm): Vm
    requires s.free != []
  {
    s.(free := s.free[1..], owner := s.owner[s.free[0] := Other])
  }

  function Push(s: Vm, f: nat): Vm {
    s.(free := [f] + s.free, mem := s.mem[f := Bytes(JUNK())], owner := s.owner - {f})
  }

  predicate Spare(s: Vm, f: nat) {
    f in s.owner && s.owner[f] == Other
  }

  /** Two states with the same page tables. */
  ghost predicate SameTables(s: Vm, t: Vm) {
    && t.dirs == s.dirs
    && (forall f :: f in s.owner && (s.owner[f].AsDir? || s.owner[f].AsTable?) ==> f in s.mem && f in t.mem && t.mem[f] == s.mem[f])
  }

  lemma SameTablesEntries(s: Vm, t: Vm, d: nat, v: nat)
    requires Good(s) && SameTables(s, t) && d in s.dirs
    ensures Pde(t, d, v) == Pde(s, d, v) && Pte(t, d, v) == Pte(s, d, v)
  {
    assert Pde(t, d, v) == Pde(s, d, v) && Pde(t, d, v / NENTRIES) == Pde(s, d, v / NENTRIES);
  }

  lemma SameTablesAll(s: Vm, t: Vm)
    requires Good(s) && SameTables(s, t)
    ensures forall d, x :: d in s.dirs ==> Pde(t, d, x) == Pde(s, d, x)
    ensures forall d, v :: d in s.dirs ==> Pte(t, d, v) == Pte(s, d, v)
  {
    forall d, v | d in s.dirs ensures Pde(t, d, v) == Pde(s, d, v) && Pte(t, d, v) == Pte(s, d, v) {
      SameTablesEntries(s, t, d, v);
    }
  }

  lemma TailFree(free: seq<nat>)
    requires free != [] && NoRepeats(free)
    ensures NoRepeats(free[1..]) && forall f :: f in free[1..] <==> f in free && f != free[0]
  {
    assert free == [free[0]] + free[1..];
    forall f | f in free[1..] ensures f in free && f != free[0] {
      var i :| 0 <= i < |free[1..]| && free[1..][i] == f;
      assert free[i + 1] == f;
    }
  }

  lemma PopFree(s: Vm)
    requires FreeOk(s) && s.free != []
    ensures FreeOk(Pop(s)) && Frames(Pop(s)) == Frames(s)
  {
    TailFree(s.free);
    forall f ensures f in Frames(Pop(s)) <==> f in Frames(s) {
    }
  }

  lemma PopGood(s: Vm)
    requires Good(s) && s.free != []
    ensures Good(Pop(s)) && SameTables(s, Pop(s)) && Frames(Pop(s)) == Frames(s) && Spare(Pop(s), s.free[0])
  {
    PopFree(s);
    assert s.free[0] in s.free && s.free[0] in s.mem && s.free[0] !in s.owner && s.free[0] != 0;
    hide FreeOk, Frames;
    SameTablesAll(s, Pop(s));
  }

  lemma PushFree(s: Vm, f: nat)
    requires FreeOk(s) && Spare(s, f) && f != 0
    ensures FreeOk(Push(s, f)) && Frames(Push(s, f)) == Frames(s)
  {
    forall g ensures g in Frames(Push(s, f)) <==> g in Frames(s) {
    }
  }

  lemma PushGood(s: Vm, f: nat)
    requires Good(s) && Spare(s, f)
    ensures Good(Push(s, f)) && SameTables(s, Push(s, f)) && Frames(Push(s, f)) == Frames(s)
  {
    PushFree(s, f);
    hide FreeOk, Frames;
    SameTablesAll(s, Push(s, f));
  }

  // ---------------------------------------------------------------- installing and removing entries

  function EmptyTable(): Page {
    Table(seq(NENTRIES, _ => NoEntry))
  }

  /** PTE_W | PTE_U. PTE_P is the difference between Entry and NoEntry and not among the flags. */
  const PDEFLAGS := 6

  /** A spare frame becomes the (empty) page table for directory entry `x`. */
  function AddTable(s: Vm, d: nat, x: nat, f: nat): Vm
    requires IsTable(s, d) && x < NENTRIES
  {
    s.(mem := s.mem[f := EmptyTable()][d := Table(s.mem[d].entries[x := Entry(f, PDEFLAGS)])],
       owner := s.owner[f := AsTable(d, x)])
  }

  predicate HasTable(s: Vm, d: nat, v: nat) {
    Pde(s, d, v / NENTRIES).Entry? && IsTable(s, Pde(s, d, v / NENTRIES).frame)
  }

  function SetPte(s: Vm, d: nat, v: nat, e: Entry): Vm
    requires HasTable(s, d, v)
  {
    var t := Pde(s, d, v / NENTRIES).frame;
    s.(mem := s.mem[t := Table(s.mem[t].entries[v % NENTRIES := e])])
  }

  lemma AddTableEntries(s: Vm, d: nat, x: nat, f: nat, d': nat, x': nat, v: nat)
    requires Good(s) && d in s.dirs && d' in s.dirs && x < NENTRIES && Spare(s, f) && Pde(s, d, x).NoEntry?
    ensures Pde(AddTable(s, d, x, f), d', x') == if d' == d && x' == x then Entry(f, PDEFLAGS) else Pde(s, d', x')
    ensures Pte(AddTable(s, d, x, f), d', v) == Pte(s, d', v)
  {
    var t := AddTable(s, d, x, f);
    var y := v / NENTRIES;
    assert Pde(t, d', y) == if d' == d && y == x then Entry(f, PDEFLAGS) else Pde(s, d', y);
  }

  lemma AddTableGood(s: Vm, d: nat, x: nat, f: nat)
    requires Good(s) && d in s.dirs && x < NENTRIES && Spare(s, f) && Pde(s, d, x).NoEntry?
    ensures Good(AddTable(s, d, x, f)) && Frames(AddTable(s, d, x, f)) == Frames(s)
  {
    var t := AddTable(s, d, x, f);
    forall d', x' | d' in s.dirs
      ensures Pde(t, d', x') == if d' == d && x' == x then Entry(f, PDEFLAGS) else Pde(s, d', x')
    {
      AddTableEntries(s, d, x, f, d', x', 0);
    }
    forall d', v | d' in s.dirs ensures Pte(t, d', v) == Pte(s, d', v) {
      AddTableEntries(s, d, x, f, d', x, v);
    }
  }

  lemma SetPteEntries(s: Vm, d: nat, v: nat, e: Entry, d': nat, x: nat, v': nat)
    requires Good(s) && d in s.dirs && d' in s.dirs && HasTable(s, d, v)
    ensures Pde(SetPte(s, d, v, e), d', x) == Pde(s, d', x)
    ensures Pte(SetPte(s, d, v, e), d', v') == if d' == d && v' == v then e else Pte(s, d', v')
  {
    var t := SetPte(s, d, v, e);
    var f := Pde(s, d, v / NENTRIES).frame;
    assert s.owner[f] == AsTable(d, v / NENTRIES);
    assert Pde(t, d', v' / NENTRIES) == Pde(s, d', v' / NENTRIES);
  }

  ghost predicate OnePte(s: Vm, t: Vm, d: nat, v: nat, e: Entry) {
    && t.dirs == s.dirs
    && (forall d', x :: d' in s.dirs ==> Pde(t, d', x) == Pde(s, d', x))
    && (forall d', v' :: d' in s.dirs ==> Pte(t, d', v') == if d' == d && v' == v then e else Pte(s, d', v'))
    && (forall f :: IsTable(s, f) ==> IsTable(t, f))
    && (forall f :: f in s.mem && s.mem[f].Bytes? ==> f in t.mem && t.mem[f] == s.mem[f])
  }

  lemma SetPteOne(s: Vm, d: nat, v: nat, e: Entry)
    requires Good(s) && d in s.dirs && HasTable(s, d, v)
    ensures OnePte(s, SetPte(s, d, v, e), d, v, e)
  {
    var t := SetPte(s, d, v, e);
    forall d', x | d' in s.dirs ensures Pde(t, d', x) == Pde(s, d', x) {
      SetPteEntries(s, d, v, e, d', x, 0);
    }
    forall d', v' | d' in s.dirs ensures Pte(t, d', v') == if d' == d && v' == v then e else Pte(s, d', v') {
      SetPteEntries(s, d, v, e, d', 0, v');
    }
  }

  /** Map a spare frame at user page `v`. */
  function MapUser(s: Vm, d: nat, v: nat, f: nat, flags: nat): Vm
    requires HasTable(s, d, v)
  {
    SetPte(s, d, v, Entry(f, flags)).(owner := s.owner[f := AsUser(d, v)])
  }

  lemma OwnerIrrelevant(s: Vm, t: Vm, owner: map<nat, Use>, d: nat, v: nat, e: Entry)
    requires OnePte(s, t, d, v, e)
    ensures OnePte(s, t.(owner := owner), d, v, e)
  {
    var t' := t.(owner := owner);
    assert forall d', x :: Pde(t', d', x) == Pde(t, d', x);
    assert forall d', v' :: Pte(t', d', v') == Pte(t, d', v');
  }

  /** What one entry change does to the books, for the three kinds of change. */
  lemma MapKeepsGood(s: Vm, t: Vm, d: nat, v: nat, f: nat, flags: nat)
    requires Good(s) && d in s.dirs && v < UVPAGES && Pte(s, d, v).NoEntry? && Spare(s, f) && s.mem[f].Bytes?
    requires OnePte(s, t, d, v, Entry(f, flags)) && t.free == s.free && t.mem.Keys == s.mem.Keys
    requires t.owner == s.owner[f := AsUser(d, v)]
    ensures Good(t)
  {
  }

  lemma UnmapKeepsGood(s: Vm, t: Vm, d: nat, v: nat)
    requires Good(s) && d in s.dirs && v < UVPAGES && Pte(s, d, v).Entry?
    requires OnePte(s, t, d, v, NoEntry) && t.free == s.free && t.mem.Keys == s.mem.Keys
    requires t.owner == s.owner[Pte(s, d, v).frame := Other]
    ensures Good(t)
  {
  }

  lemma KernelMapKeepsGood(s: Vm, t: Vm, d: nat, v: nat, e: Entry)
    requires Good(s) && d in s.dirs && UVPAGES <= v
    requires OnePte(s, t, d, v, e) && t.free == s.free && t.mem.Keys == s.mem.Keys && t.owner == s.owner
    ensures Good(t)
  {
  }

  lemma MapUserGood(s: Vm, d: nat, v: nat, f: nat, flags: nat)
    requires Good(s) && d in s.dirs && v < UVPAGES && HasTable(s, d, v) && Pte(s, d, v).NoEntry?
    requires Spare(s, f) && s.mem[f].Bytes?
    ensures var t := MapUser(s, d, v, f, flags);
            Good(t) && OnePte(s, t, d, v, Entry(f, flags)) && Frames(t) == Frames(s)
  {
    hide Good, OnePte, Pte;
    SetPteOne(s, d, v, Entry(f, flags));
    OwnerIrrelevant(s, SetPte(s, d, v, Entry(f, flags)), s.owner[f := AsUser(d, v)], d, v, Entry(f, flags));
    MapKeepsGood(s, MapUser(s, d, v, f, flags), d, v, f, flags);
  }

  /** Unmap user page `v`; its frame becomes spare. */
  function UnmapUser(s: Vm, d: nat, v: nat): Vm
    requires HasTable(s, d, v) && Pte(s, d, v).Entry?
  {
    SetPte(s, d, v, NoEntry).(owner := s.owner[Pte(s, d, v).frame := Other])
  }

  lemma UnmapUserGood(s: Vm, d: nat, v: nat)
    requires Good(s) && d in s.dirs && v < UVPAGES && HasTable(s, d, v) && Pte(s, d, v).Entry?
    ensures var t := UnmapUser(s, d, v);
            Good(t) && OnePte(s, t, d, v, NoEntry) && Frames(t) == Frames(s) && Spare(t, Pte(s, d, v).frame)
  {
    var f := Pte(s, d, v).frame;
    assert f in s.owner;
    hide Good, OnePte, Pte;
    SetPteOne(s, d, v, NoEntry);
    OwnerIrrelevant(s, SetPte(s, d, v, NoEntry), s.owner[f := Other], d, v, NoEntry);
    UnmapKeepsGood(s, UnmapUser(s, d, v), d, v);
  }
}
