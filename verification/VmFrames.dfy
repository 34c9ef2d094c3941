/** How many frames it takes to map pages: one for each page, and one for each page table that is missing. */
module VmFrames {
  import opened Sets
  import opened VmSpace
  import opened VmLife

  /** The directory entries of `d` that have a page table. */
  ghost function Tables(s: Vm, d: nat): set<nat> {
    set x: nat | x < NENTRIES && Pde(s, d, x).Entry?
  }

  /** Directory entry `x` is that of some page of lo..hi. */
  predicate Spans(lo: nat, hi: nat, x: nat) {
    lo < hi && lo / 1024 <= x <= (hi - 1) / 1024
  }

  ghost function Spanned(lo: nat, hi: nat): set<nat> {
    set x: nat | x <= hi && Spans(lo, hi, x)
  }

  ghost function Need(s: Vm, d: nat, lo: nat, hi: nat): int {
    hi - lo + |Spanned(lo, hi) - Tables(s, d)|
  }

  /** The directory entries of a kernel map. */
  ghost function SpannedRows(km: seq<Kmap>): set<nat> {
    if km == [] then {}
    else
      var k := km[|km| - 1];
      SpannedRows(km[..|km| - 1]) + Spanned(k.v, k.v + k.n)
  }

  /** The frames of a new address space of `n` user pages: the directory, the page tables of both halves, the pages. */
  ghost function CopyNeed(km: seq<Kmap>, n: nat): int {
    1 + |SpannedRows(km)| + n + |Spanned(0, n)|
  }

  lemma SpannedNone(lo: nat)
    ensures Spanned(lo, lo) == {}
  {
  }

  lemma SpannedStep(lo: nat, v: nat)
    requires lo <= v
    ensures Spanned(lo, v + 1) == Spanned(lo, v) + {v / 1024}
  {
    forall x: nat
      ensures x in Spanned(lo, v + 1) <==> x in Spanned(lo, v) || x == v / 1024
    {
      assert lo < v ==> (v - 1) / 1024 <= v / 1024 <= (v - 1) / 1024 + 1;
    }
  }

  lemma SpannedWithin(lo: nat, v: nat, hi: nat)
    requires v <= hi
    ensures Spanned(lo, v) <= Spanned(lo, hi)
  {
  }

  /** A directory of which only other frames have changed has the same page tables. */
  lemma TablesKept(s: Vm, t: Vm, d: nat)
    requires d in s.mem && d in t.mem && t.mem[d] == s.mem[d]
    ensures Tables(t, d) == Tables(s, d)
  {
  }

  lemma TablesAdded(s: Vm, t: Vm, d: nat, x: nat, e: Entry)
    requires IsTable(s, d) && x < NENTRIES && d in t.mem && e.Entry?
    requires t.mem[d] == Table(s.mem[d].entries[x := e])
    ensures Tables(t, d) == Tables(s, d) + {x}
  {
    forall y: nat
      ensures y in Tables(t, d) <==> y in Tables(s, d) || y == x
    {
    }
  }

  lemma PlusNew(a: set<nat>, b: set<nat>)
    ensures |a + b| == |a| + |b - a|
  {
    assert a + b == a + (b - a);
  }

  /** What is left of the free list after pages lo..v have been mapped. */
  ghost predicate Left(free: int, free0: int, tables: set<nat>, tables0: set<nat>, lo: nat, v: nat) {
    lo <= v && tables == tables0 + Spanned(lo, v) && free + |tables| + (v - lo) == free0 + |tables0|
  }

  lemma LeftNothing(free: int, tables: set<nat>, lo: nat)
    ensures Left(free, free, tables, tables, lo, lo)
  {
    SpannedNone(lo);
    assert tables + {} == tables;
  }

  lemma LeftStep(free: int, free': int, free0: int, tables: set<nat>, tables': set<nat>, tables0: set<nat>, lo: nat, v: nat)
    requires Left(free, free0, tables, tables0, lo, v)
    requires tables' == tables + {v / 1024} && free' + |tables'| + 1 == free + |tables|
    ensures Left(free', free0, tables', tables0, lo, v + 1)
  {
    SpannedStep(lo, v);
    assert tables' == tables0 + Spanned(lo, v + 1);
  }

  /** Having mapped all the pages it had frames enough. */
  lemma Enough(s: Vm, d: nat, free: nat, tables: set<nat>, free0: nat, lo: nat, hi: nat)
    requires Left(free, free0, tables, Tables(s, d), lo, hi)
    ensures Need(s, d, lo, hi) <= free0
  {
    PlusNew(Tables(s, d), Spanned(lo, hi));
  }

  /** Having failed to map page `v` it had not. */
  lemma NotEnough(s: Vm, d: nat, free: nat, tables: set<nat>, free0: nat, lo: nat, v: nat, hi: nat)
    requires Left(free, free0, tables, Tables(s, d), lo, v) && v < hi
    requires free < 1 + if v / 1024 in tables then 0 else 1
    ensures Need(s, d, lo, hi) > free0
  {
    SpannedStep(lo, v);
    SpannedWithin(lo, v + 1, hi);
    PlusNew(Tables(s, d), Spanned(lo, v + 1));
    assert tables + {v / 1024} == Tables(s, d) + Spanned(lo, v + 1);
    PlusNew(tables, {v / 1024});
    assert {v / 1024} - tables == if v / 1024 in tables then {} else {v / 1024};
    SubsetSize(Spanned(lo, v + 1) - Tables(s, d), Spanned(lo, hi) - Tables(s, d));
  }

  // ---------------------------------------------------------------- the kernel half

  lemma RowsStep(km: seq<Kmap>, j: nat)
    requires j < |km|
    ensures SpannedRows(km[..j + 1]) == SpannedRows(km[..j]) + Spanned(km[j].v, km[j].v + km[j].n)
  {
    assert km[..j + 1][..j] == km[..j];
  }

  lemma {:induction false} RowsWithin(km: seq<Kmap>, j: nat)
    requires j <= |km|
    ensures SpannedRows(km[..j]) <= SpannedRows(km)
    decreases |km| - j
  {
    if j == |km| {
      assert km[..j] == km;
    } else {
      RowsStep(km, j);
      RowsWithin(km, j + 1);
    }
  }

  lemma ProperSize(a: set<nat>, b: set<nat>)
    requires a < b
    ensures |a| < |b|
  {
    var x :| x in b && x !in a;
    SubsetSize(a + {x}, b);
  }

  /** Having failed in row `j` there were not frames enough for the whole map. */
  lemma RowsShort(km: seq<Kmap>, j: nat, tables: set<nat>)
    requires j < |km| && tables < SpannedRows(km[..j]) + Spanned(km[j].v, km[j].v + km[j].n)
    ensures |tables| < |SpannedRows(km)|
  {
    RowsStep(km, j);
    RowsWithin(km, j + 1);
    ProperSize(tables, SpannedRows(km));
  }

  /** The page that could not be mapped has a directory entry that is not there. */
  lemma RowShort(tables: set<nat>, tables0: set<nat>, lo: nat, v: nat, hi: nat)
    requires lo <= v < hi && tables == tables0 + Spanned(lo, v) && v / 1024 !in tables
    ensures tables < tables0 + Spanned(lo, hi)
  {
    SpannedStep(lo, v);
    SpannedWithin(lo, v + 1, hi);
    assert v / 1024 in tables0 + Spanned(lo, hi);
  }

  lemma {:induction false} RowsHigh(km: seq<Kmap>, x: nat)
    requires GoodKmap(km) && x in SpannedRows(km)
    ensures x >= 512
    decreases |km|
  {
    var k := km[|km| - 1];
    if x !in Spanned(k.v, k.v + k.n) {
      RowsHigh(km[..|km| - 1], x);
    }
  }

  /** The two halves share no page table. */
  lemma HalvesApart(km: seq<Kmap>, n: nat)
    requires GoodKmap(km) && n <= UVPAGES
    ensures |SpannedRows(km) + Spanned(0, n)| == |SpannedRows(km)| + |Spanned(0, n)|
  {
    forall x | x in SpannedRows(km)
      ensures x !in Spanned(0, n)
    {
      RowsHigh(km, x);
    }
    assert Spanned(0, n) - SpannedRows(km) == Spanned(0, n);
    PlusNew(SpannedRows(km), Spanned(0, n));
  }

  /** What copying `n` pages takes, from what is left after it. */
  lemma CopyEnough(km: seq<Kmap>, free: nat, free0: nat, tables: set<nat>, n: nat)
    requires GoodKmap(km) && n <= UVPAGES
    requires Left(free, free0 - 1 - |SpannedRows(km)|, tables, SpannedRows(km), 0, n)
    ensures CopyNeed(km, n) + free == free0
  {
    HalvesApart(km, n);
  }

  lemma CopyNotEnough(km: seq<Kmap>, free: nat, free0: nat, tables: set<nat>, n: nat)
    requires GoodKmap(km) && n < UVPAGES
    requires Left(free, free0 - 1 - |SpannedRows(km)|, tables, SpannedRows(km), 0, n)
    requires free < 1 + if n / 1024 in tables then 0 else 1
    ensures CopyNeed(km, n + 1) > free0
  {
    HalvesApart(km, n);
    HalvesApart(km, n + 1);
    SpannedStep(0, n);
    assert tables + {n / 1024} == SpannedRows(km) + Spanned(0, n + 1);
    PlusNew(tables, {n / 1024});
    assert {n / 1024} - tables == if n / 1024 in tables then {} else {n / 1024};
  }
}
