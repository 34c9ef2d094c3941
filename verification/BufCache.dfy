/**
 The buffer cache of bio.c as a step system: any interleaving of bget, sleep-lock acquisitions, disk reads,
 modifications that are logged or written, and the two halves of brelse.
 */
module BufCache {
  import opened BufRing
  import opened DiskQueue

  /**
   refs, locked: refcnt and the sleep-lock of every buffer. order: the list from head.next on. stamps: when a
   buffer's last reference was given up, by a clock. contents: for every block of the root disk, the data
   last logged or written there.
   */
  datatype Cache = Cache(
    bufs: seq<Buf>, refs: seq<nat>, locked: seq<bool>, order: seq<nat>,
    stamps: seq<int>, clock: int, disk: Disk, contents: Disk)

  datatype Step =
    | Hit(b: nat, dev: nat, blockno: nat)
    | Recycle(b: nat, dev: nat, blockno: nat)
    | Lock(b: nat)
    | Fill(b: nat)
    | LogData(b: nat, data: Block)
    | WriteData(b: nat, data: Block)
    | Unlock(b: nat)
    | Drop(b: nat)

  predicate Sized(c: Cache) {
    && |c.bufs| == |c.refs| == |c.locked| == |c.stamps| == NBUF
    && |c.contents| == |c.disk|
  }

  predicate Is(buf: Buf, dev: nat, blockno: nat) {
    buf.dev == dev && buf.blockno == blockno
  }

  /** Neither referenced nor holding data that is logged but not committed. */
  predicate Eligible(c: Cache, b: nat)
    requires Sized(c) && b < NBUF
  {
    c.refs[b] == 0 && !c.bufs[b].dirty
  }

  predicate Cached(c: Cache, dev: nat, blockno: nat) {
    exists b :: 0 <= b < |c.bufs| && Is(c.bufs[b], dev, blockno)
  }

  /** The eligible buffer whose last reference was given up longest ago. */
  predicate Oldest(c: Cache, b: nat)
    requires Sized(c) && b < NBUF
  {
    Eligible(c, b) && forall e :: 0 <= e < NBUF && Eligible(c, e) ==> c.stamps[b] <= c.stamps[e]
  }

  predicate OnDisk(c: Cache, b: nat) {
    b < |c.bufs| && c.bufs[b].dev == ROOTDEV && c.bufs[b].blockno < |c.disk|
  }

  predicate Enabled(c: Cache, a: Step) {
    && Sized(c)
    && a.b < NBUF
    && match a
       case Hit(b, dev, blockno) => Is(c.bufs[b], dev, blockno)
       case Recycle(b, dev, blockno) => !Cached(c, dev, blockno) && Oldest(c, b)
       case Lock(b) => c.refs[b] > 0 && !c.locked[b]
       case Fill(b) => c.locked[b] && !c.bufs[b].valid && OnDisk(c, b)
       case LogData(b, _) => c.locked[b] && c.bufs[b].valid && OnDisk(c, b)
       case WriteData(b, _) => c.locked[b] && c.bufs[b].valid && OnDisk(c, b)
       case Unlock(b) => c.locked[b]
       case Drop(b) => c.refs[b] > if c.locked[b] then 1 else 0
  }

  /** Where b stands in the list. */
  ghost function Place(order: seq<nat>, b: nat): (p: nat)
    requires b in order
    ensures p < |order| && order[p] == b
  {
    var p: nat :| p < |order| && order[p] == b;
    p
  }

  /** A last reference given up moves the buffer to the front. */
  ghost function Dropped(c: Cache, b: nat): Cache
    requires Sized(c) && b < NBUF && c.refs[b] > 0
  {
    if c.refs[b] > 1 || b !in c.order then c.(refs := c.refs[b := c.refs[b] - 1])
    else
      c.(refs := c.refs[b := 0],
         order := ToFront(c.order, Place(c.order, b)),
         stamps := c.stamps[b := c.clock],
         clock := c.clock + 1)
  }

  ghost function Do(c: Cache, a: Step): Cache
    requires Enabled(c, a)
  {
    var b := a.b;
    match a
    case Hit(_, dev, blockno) => c.(refs := c.refs[b := c.refs[b] + 1])
    case Recycle(_, dev, blockno) =>
      c.(bufs := c.bufs[b := Buf(false, false, dev, blockno, c.bufs[b].data)], refs := c.refs[b := 1])
    case Lock(_) => c.(locked := c.locked[b := true])
    case Fill(_) => c.(bufs := c.bufs[b := Synced(c.bufs[b], c.disk)], disk := SyncedDisk(c.bufs[b], c.disk))
    case LogData(_, data) =>
      c.(bufs := c.bufs[b := c.bufs[b].(data := data, dirty := true)],
         contents := c.contents[c.bufs[b].blockno := data])
    case WriteData(_, data) =>
      c.(bufs := c.bufs[b := Synced(c.bufs[b].(data := data, dirty := true), c.disk)],
         disk := SyncedDisk(c.bufs[b].(data := data, dirty := true), c.disk),
         contents := c.contents[c.bufs[b].blockno := data])
    case Unlock(_) => c.(locked := c.locked[b := false])
    case Drop(_) => Dropped(c, b)
  }

  // ---------------------------------------------------------------- what every step keeps

  /** The list holds every buffer once, latest release first. */
  ghost predicate Sorted(c: Cache)
    requires Sized(c)
  {
    && Distinct(c.order) && |c.order| == NBUF
    && (forall b :: 0 <= b < NBUF ==> b in c.order)
    && (forall b :: 0 <= b < NBUF ==> c.stamps[b] < c.clock)
    && (forall i, j :: 0 <= i < j < NBUF ==> c.stamps[c.order[i]] > c.stamps[c.order[j]])
  }

  ghost predicate Unique(c: Cache) {
    forall i, j :: 0 <= i < j < |c.bufs| && c.bufs[i].dev == c.bufs[j].dev == ROOTDEV ==> c.bufs[i].blockno != c.bufs[j].blockno
  }

  /** b holds data for block x that the disk does not have yet. */
  predicate Pins(c: Cache, b: int, x: int) {
    0 <= b < |c.bufs| && c.bufs[b].dirty && c.bufs[b].blockno == x
  }

  ghost predicate Coherent(c: Cache)
    requires Sized(c)
  {
    && (forall b :: 0 <= b < NBUF && c.locked[b] ==> c.refs[b] > 0)
    && (forall b :: 0 <= b < NBUF && c.bufs[b].dirty ==> c.bufs[b].valid)
    && (forall b :: 0 <= b < NBUF && c.bufs[b].valid ==> OnDisk(c, b) && c.bufs[b].data == c.contents[c.bufs[b].blockno])
    && (forall x :: 0 <= x < |c.disk| ==> c.disk[x] == c.contents[x] || exists b :: Pins(c, b, x))
  }

  ghost predicate Inv(c: Cache) {
    Sized(c) && Sorted(c) && Unique(c) && Coherent(c)
  }

  lemma FrontAt(order: seq<nat>, p: nat)
    requires p < |order|
    ensures ToFront(order, p)[0] == order[p]
    ensures forall k :: 0 <= k < p ==> ToFront(order, p)[k + 1] == order[k]
    ensures forall k :: p < k < |order| ==> ToFront(order, p)[k] == order[k]
  {
  }

  lemma FrontPairs(order: seq<nat>, p: nat)
    requires Distinct(order) && p < |order|
    ensures Distinct(ToFront(order, p))
  {
    var o := ToFront(order, p);
    assert o[0] == order[p] && forall k :: 1 <= k < |o| ==> o[k] == if k - 1 < p then order[k - 1] else order[k];
  }

  lemma FrontDistinct(order: seq<nat>, p: nat)
    requires Distinct(order) && p < |order|
    ensures Distinct(ToFront(order, p))
    ensures forall b :: b in order ==> b in ToFront(order, p)
  {
    hide ToFront;
    FrontAt(order, p);
    FrontPairs(order, p);
    var o := ToFront(order, p);
    forall b | b in order
      ensures b in o
    {
      var k := Place(order, b);
      assert o[if k < p then k + 1 else if k == p then 0 else k] == b;
    }
  }

  lemma DropSorts(c: Cache, b: nat)
    requires Sized(c) && Sorted(c) && b < NBUF && c.refs[b] > 0
    ensures Sized(Dropped(c, b)) && Sorted(Dropped(c, b))
  {
    hide ToFront;
    var d := Dropped(c, b);
    if c.refs[b] == 1 {
      var p := Place(c.order, b);
      FrontAt(c.order, p);
      FrontDistinct(c.order, p);
      assert |d.order| == NBUF;
      forall i, j | 0 <= i < j < NBUF
        ensures d.stamps[d.order[i]] > d.stamps[d.order[j]]
      {
        FrontStamps(c, p, i, j);
      }
    }
  }

  lemma FrontStamps(c: Cache, p: nat, i: nat, j: nat)
    requires Sized(c) && Sorted(c) && p < NBUF && i < j < NBUF
    ensures var o, stamps := ToFront(c.order, p), c.stamps[c.order[p] := c.clock];
            o[i] < NBUF && o[j] < NBUF && stamps[o[i]] > stamps[o[j]]
  {
    FrontAt(c.order, p);
    var o := ToFront(c.order, p);
    assert o[j] == if j <= p then c.order[j - 1] else c.order[j];
    assert i > 0 ==> o[i] == if i <= p then c.order[i - 1] else c.order[i];
  }

  lemma SortedKept(c: Cache, a: Step)
    requires Inv(c) && Enabled(c, a)
    ensures Sized(Do(c, a)) && Sorted(Do(c, a))
  {
    if a.Drop? {
      DropSorts(c, a.b);
    }
  }

  lemma UniqueKept(c: Cache, a: Step)
    requires Inv(c) && Enabled(c, a)
    ensures Unique(Do(c, a))
  {
  }

  /** Recycling never loses data: a buffer that holds the only copy is dirty, hence not eligible. */
  lemma CoherentKept(c: Cache, a: Step)
    requires Inv(c) && Enabled(c, a) && Sized(Do(c, a))
    ensures Coherent(Do(c, a))
  {
    var d := Do(c, a);
    forall x | 0 <= x < |d.disk|
      ensures d.disk[x] == d.contents[x] || exists b :: Pins(d, b, x)
    {
      PinsKept(c, a, x);
    }
  }

  lemma PinsKept(c: Cache, a: Step, x: int)
    requires Inv(c) && Enabled(c, a) && 0 <= x < |c.disk| && Sized(Do(c, a)) && |Do(c, a).disk| == |c.disk|
    ensures Do(c, a).disk[x] == Do(c, a).contents[x] || exists b :: Pins(Do(c, a), b, x)
  {
    var d := Do(c, a);
    if a.LogData? && c.bufs[a.b].blockno == x {
      assert Pins(d, a.b, x);
    } else if c.disk[x] != c.contents[x] {
      var b :| Pins(c, b, x);
      if !(a.WriteData? && a.b == b) {
        assert Pins(d, b, x);
      }
    }
  }

  lemma StepKeeps(c: Cache, a: Step)
    requires Inv(c) && Enabled(c, a)
    ensures Inv(Do(c, a))
  {
    hide Sorted, Unique, Coherent, Do, Enabled;
    SortedKept(c, a);
    UniqueKept(c, a);
    CoherentKept(c, a);
  }

  /**
   A referenced or dirty buffer keeps its block whatever happens, and its data change only in the hands of the
   process that has it locked.
   */
  lemma BufferProtected(c: Cache, a: Step, b: nat)
    requires Inv(c) && Enabled(c, a) && b < NBUF && (c.refs[b] > 0 || c.bufs[b].dirty)
    ensures Is(Do(c, a).bufs[b], c.bufs[b].dev, c.bufs[b].blockno)
    ensures Do(c, a).bufs[b].data != c.bufs[b].data ==> a.b == b && c.locked[b]
  {
  }

  // ---------------------------------------------------------------- runs

  /** After binit every buffer is an unused one of device 0, block 0, and the last one is in front. */
  ghost predicate Booted(c: Cache) {
    && Sized(c) && Sorted(c) && c.contents == c.disk
    && (forall i :: 0 <= i < NBUF ==> c.order[i] == NBUF - 1 - i)
    && forall b :: 0 <= b < NBUF ==>
         Is(c.bufs[b], 0, 0) && !c.bufs[b].valid && !c.bufs[b].dirty && c.refs[b] == 0 && !c.locked[b]
  }

  lemma BootedInv(c: Cache)
    requires Booted(c)
    ensures Inv(c)
  {
  }

  /** binit pushes the buffers to the front one after the other. */
  lemma PushedSorted(c: Cache)
    requires Sized(c) && |c.order| == NBUF && c.clock == NBUF
    requires forall i :: 0 <= i < NBUF ==> c.order[i] == NBUF - 1 - i && c.stamps[i] == i
    ensures Sorted(c)
  {
    forall b | 0 <= b < NBUF
      ensures b in c.order
    {
      assert c.order[NBUF - 1 - b] == b;
    }
  }

  ghost predicate Run(cs: seq<Cache>, acts: seq<Step>) {
    && |cs| == |acts| + 1
    && Booted(cs[0])
    && forall k :: 0 <= k < |acts| ==> Enabled(cs[k], acts[k]) && cs[k + 1] == Do(cs[k], acts[k])
  }

  lemma {:induction false} RunInv(cs: seq<Cache>, acts: seq<Step>, k: nat)
    requires Run(cs, acts) && k < |cs|
    ensures Inv(cs[k]) && |cs[k].disk| == |cs[0].disk|
  {
    if k > 0 {
      RunInv(cs, acts, k - 1);
      StepKeeps(cs[k - 1], acts[k - 1]);
    }
  }

  /** As long as a buffer is referenced it stands for the same block, whatever the other processes do. */
  lemma {:induction false} ReferenceKept(cs: seq<Cache>, acts: seq<Step>, i: nat, j: nat, b: nat)
    requires Run(cs, acts) && i <= j < |cs| && b < NBUF
    requires forall k :: i <= k < j ==> |cs[k].refs| == NBUF && cs[k].refs[b] > 0
    ensures |cs[i].bufs| == |cs[j].bufs| == NBUF
    ensures Is(cs[j].bufs[b], cs[i].bufs[b].dev, cs[i].bufs[b].blockno)
    decreases j - i
  {
    hide Sorted, Unique, Coherent, Do, Enabled, Booted;
    RunInv(cs, acts, j);
    if i < j {
      ReferenceKept(cs, acts, i, j - 1, b);
      RunInv(cs, acts, j - 1);
      BufferProtected(cs[j - 1], acts[j - 1], b);
      assert cs[j - 1 + 1] == Do(cs[j - 1], acts[j - 1]);
    }
  }

  /** Whether the step logs or writes block x. */
  predicate Changes(c: Cache, a: Step, x: nat) {
    (a.LogData? || a.WriteData?) && a.b < |c.bufs| && c.bufs[a.b].blockno == x
  }

  /** The data last logged or written to block x in the first k steps, or what the disk held at the start. */
  ghost function LastData(cs: seq<Cache>, acts: seq<Step>, k: nat, x: nat): Block
    requires Run(cs, acts) && k < |cs| && x < |cs[0].disk|
  {
    if k == 0 then cs[0].disk[x]
    else if Changes(cs[k - 1], acts[k - 1], x) then acts[k - 1].data
    else LastData(cs, acts, k - 1, x)
  }

  lemma {:induction false} ContentsAreLast(cs: seq<Cache>, acts: seq<Step>, k: nat, x: nat)
    requires Run(cs, acts) && k < |cs| && x < |cs[0].disk|
    ensures |cs[k].contents| == |cs[0].disk| && cs[k].contents[x] == LastData(cs, acts, k, x)
  {
    if k > 0 {
      ContentsAreLast(cs, acts, k - 1, x);
      RunInv(cs, acts, k - 1);
      assert Enabled(cs[k - 1], acts[k - 1]);
    }
  }

  /**
   In every state of every run a valid buffer is one of the root disk and holds the data last logged or written
   to its block, and no two buffers stand for the same block of the root disk.
   */
  lemma CacheSafety(cs: seq<Cache>, acts: seq<Step>, k: nat, b: nat, e: nat)
    requires Run(cs, acts) && k < |cs| && b < NBUF && e < NBUF
    ensures |cs[k].bufs| == NBUF
    ensures cs[k].bufs[b].valid ==>
              && cs[k].bufs[b].dev == ROOTDEV && cs[k].bufs[b].blockno < |cs[0].disk|
              && cs[k].bufs[b].data == LastData(cs, acts, k, cs[k].bufs[b].blockno)
    ensures cs[k].bufs[b].dev == cs[k].bufs[e].dev == ROOTDEV && cs[k].bufs[b].blockno == cs[k].bufs[e].blockno ==> b == e
  {
    RunInv(cs, acts, k);
    if cs[k].bufs[b].valid {
      assert OnDisk(cs[k], b);
      ContentsAreLast(cs, acts, k, cs[k].bufs[b].blockno);
    }
  }

  /** A block whose logged data are not on the disk yet is in some dirty buffer; any other is on the disk. */
  lemma NothingLost(cs: seq<Cache>, acts: seq<Step>, k: nat, x: nat)
    requires Run(cs, acts) && k < |cs| && x < |cs[0].disk|
    ensures |cs[k].disk| == |cs[0].disk|
    ensures cs[k].disk[x] == LastData(cs, acts, k, x) || exists b :: Pins(cs[k], b, x) && cs[k].bufs[b].data == LastData(cs, acts, k, x)
  {
    RunInv(cs, acts, k);
    ContentsAreLast(cs, acts, k, x);
    if cs[k].disk[x] != cs[k].contents[x] {
      var b :| Pins(cs[k], b, x);
    }
  }

  // ---------------------------------------------------------------- references and releases

  /** What the steps so far say about the references to buffer b: one when it is recycled, then one more or one less. */
  function Held(acts: seq<Step>, k: nat, b: nat): int
    requires k <= |acts|
  {
    if k == 0 then 0
    else if acts[k - 1].b != b then Held(acts, k - 1, b)
    else if acts[k - 1].Recycle? then 1
    else if acts[k - 1].Hit? then Held(acts, k - 1, b) + 1
    else if acts[k - 1].Drop? then Held(acts, k - 1, b) - 1
    else Held(acts, k - 1, b)
  }

  /** refcnt is the number of references given out since the buffer was recycled and not given back. */
  lemma {:induction false} RefsHeld(cs: seq<Cache>, acts: seq<Step>, k: nat, b: nat)
    requires Run(cs, acts) && k < |cs| && b < NBUF
    ensures |cs[k].refs| == NBUF && cs[k].refs[b] == Held(acts, k, b)
  {
    hide Do, Enabled, Inv, Booted;
    if k > 0 {
      RefsHeld(cs, acts, k - 1, b);
      RunInv(cs, acts, k - 1);
      RefStep(cs[k - 1], acts[k - 1], b);
    } else {
      BootRefs(cs[0], b);
    }
  }

  lemma BootRefs(c: Cache, b: nat)
    requires Booted(c) && b < NBUF
    ensures |c.refs| == NBUF && c.refs[b] == 0
  {
  }

  lemma RefStep(c: Cache, a: Step, b: nat)
    requires Inv(c) && Enabled(c, a) && b < NBUF
    ensures |Do(c, a).refs| == NBUF
    ensures Do(c, a).refs[b] ==
            if a.b != b then c.refs[b]
            else if a.Recycle? then 1
            else if a.Hit? then c.refs[b] + 1
            else if a.Drop? then c.refs[b] - 1
            else c.refs[b]
  {
  }

  /** The step that gave up the last reference to b before step k; before the first, the order in which binit linked them. */
  function LastRelease(acts: seq<Step>, k: nat, b: nat): int
    requires k <= |acts|
  {
    if k == 0 then b - NBUF
    else if acts[k - 1] == Drop(b) && Held(acts, k - 1, b) == 1 then k - 1
    else LastRelease(acts, k - 1, b)
  }

  lemma {:induction false} ReleaseBefore(acts: seq<Step>, k: nat, b: nat)
    requires k <= |acts| && b < NBUF
    ensures LastRelease(acts, k, b) < k
  {
    if k > 0 {
      ReleaseBefore(acts, k - 1, b);
    }
  }

  /** The stamps order the buffers by their last release. */
  lemma {:induction false} ReleaseOrder(cs: seq<Cache>, acts: seq<Step>, k: nat, b: nat, e: nat)
    requires Run(cs, acts) && k < |cs| && b < NBUF && e < NBUF
    ensures |cs[k].stamps| == NBUF && (cs[k].stamps[b] <= cs[k].stamps[e] <==> LastRelease(acts, k, b) <= LastRelease(acts, k, e))
  {
    hide Do, Enabled, Inv, Booted;
    if k == 0 {
      BootOrder(cs[0], b, e);
    } else {
      var c, a := cs[k - 1], acts[k - 1];
      ReleaseOrder(cs, acts, k - 1, b, e);
      RunInv(cs, acts, k - 1);
      RefsHeld(cs, acts, k - 1, b);
      RefsHeld(cs, acts, k - 1, e);
      ReleaseBefore(acts, k - 1, b);
      ReleaseBefore(acts, k - 1, e);
      StampStep(c, a, b);
      StampStep(c, a, e);
    }
  }

  lemma BootOrder(c: Cache, b: nat, e: nat)
    requires Booted(c) && b < NBUF && e < NBUF
    ensures |c.stamps| == NBUF && (c.stamps[b] <= c.stamps[e] <==> b <= e)
  {
    assert c.order[NBUF - 1 - b] == b && c.order[NBUF - 1 - e] == e;
  }

  lemma StampStep(c: Cache, a: Step, b: nat)
    requires Inv(c) && Enabled(c, a) && b < NBUF
    ensures |Do(c, a).stamps| == NBUF && c.stamps[b] < c.clock
    ensures Do(c, a).stamps[b] == if a == Drop(b) && c.refs[b] == 1 then c.clock else c.stamps[b]
  {
  }

  /**
   In every run the buffer that bget recycles is, of all that nobody refers to and that hold nothing unwritten, the one
   whose last reference was given up longest ago.
   */
  lemma LeastRecentlyReleased(cs: seq<Cache>, acts: seq<Step>, k: nat, e: nat)
    requires Run(cs, acts) && k < |acts| && acts[k].Recycle? && e < NBUF
    ensures acts[k].b < NBUF && Held(acts, k, acts[k].b) == 0 && |cs[k].bufs| == NBUF && !cs[k].bufs[acts[k].b].dirty
    ensures Held(acts, k, e) == 0 && !cs[k].bufs[e].dirty ==> LastRelease(acts, k, acts[k].b) <= LastRelease(acts, k, e)
  {
    RunInv(cs, acts, k);
    assert Enabled(cs[k], acts[k]);
    RefsHeld(cs, acts, k, acts[k].b);
    RefsHeld(cs, acts, k, e);
    ReleaseOrder(cs, acts, k, acts[k].b, e);
    assert Held(acts, k, e) == 0 && !cs[k].bufs[e].dirty ==> Eligible(cs[k], e);
  }
}
