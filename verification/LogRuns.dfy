/**
 The log on top of the buffer cache: begin_op, log_write, end_op and commit by any number of processes, with every
 bread, bwrite and brelse a step of the cache, readers of any block in between, and a crash at any moment. What one
 disk write of commit does depends on the buffers it got, so whether commit gets them is part of the story.
 */
module LogRuns {
  import opened Sets
  import opened BufRing
  import DiskQueue
  import opened CrashLog
  import A = LogAdmission
  import B = BufCache

  /** How far the committing process is: blocks copied to the log, blocks installed, or only the header left to empty. */
  datatype Pc = Idle | Logging(i: nat) | Installing(i: nat) | Erasing

  /** home: the contents of the home blocks as of the last commit point. */
  datatype State = State(log: A.State, cache: B.Cache, pc: Pc, home: CrashLog.Disk)

  datatype Action =
    /** A section under log.lock, or the guard of log_write. */
    | Lock(op: A.Action)
    /** The section of log_write under the lock, for the buffer the caller has modified. */
    | Store(p: nat, b: nat, data: CrashLog.Block)
    /** bget, sleep-locks, disk reads and brelse, by anybody. */
    | Buffer(io: B.Step)
    /** bwrite in write_log. */
    | CopyToLog(to: nat, from: nat)
    /** bwrite in write_head. */
    | WriteHead(b: nat)
    /** bwrite in install_trans. */
    | CopyHome(l: nat, d: nat)
    /** A crash, recoveries that are cut, and one that completes; `cache` is what then starts up. */
    | Reboot(ds: seq<CrashLog.Disk>, cuts: seq<nat>, cache: B.Cache)

  /** A buffer of the block whose lock is held, with the block read in. */
  predicate Held(c: B.Cache, b: nat, blockno: int) {
    && B.Sized(c) && b < NBUF && blockno >= 0 && c.locked[b] && c.bufs[b].valid
    && B.Is(c.bufs[b], DiskQueue.ROOTDEV, blockno) && blockno < |c.disk|
  }

  /** After recovery: no transaction, nothing referenced and nothing that is not on disk. */
  ghost predicate Fresh(c: B.Cache) {
    B.Inv(c) && c.contents == c.disk && forall b :: 0 <= b < NBUF ==> c.refs[b] == 0 && !c.bufs[b].dirty
  }

  ghost predicate Enabled(lay: Layout, s: State, a: Action) {
    match a
    case Lock(a) =>
      && A.Enabled(s.log, a) && !a.Append?
      && (a.Check? ==> 0 <= a.b < |s.cache.disk| && !InLog(lay, a.b))
      && (a.Clear? ==> s.pc == Idle || s.pc == Installing(|s.log.blocks|))
      && (a.Finish? ==> s.pc == Idle)
    case Store(p, b, data) =>
      && A.Enabled(s.log, A.Append(p)) && B.Enabled(s.cache, B.LogData(b, data))
      && s.cache.bufs[b].blockno == s.log.roles[p].b
    case Buffer(a) => B.Enabled(s.cache, a) && !a.LogData? && !a.WriteData?
    case CopyToLog(to, from) =>
      && s.pc.Logging? && s.pc.i < |s.log.blocks|
      && Held(s.cache, to, lay.start + 1 + s.pc.i) && Held(s.cache, from, s.log.blocks[s.pc.i])
    case WriteHead(b) =>
      && (s.pc == Logging(|s.log.blocks|) || s.pc == Erasing)
      && |s.log.blocks| <= LOGSIZE && Held(s.cache, b, lay.start)
    case CopyHome(l, d) =>
      && s.pc.Installing? && s.pc.i < |s.log.blocks|
      && Held(s.cache, l, lay.start + 1 + s.pc.i) && Held(s.cache, d, s.log.blocks[s.pc.i])
    case Reboot(ds, cuts, cache) =>
      && CrashLog.History(lay, ds, Recoveries(cuts)) && ds[0] == s.cache.disk && WellFormed(lay, ds[|ds| - 1])
      && Fresh(cache) && cache.disk == Apply(ds[|ds| - 1], RecoveryWrites(lay, ds[|ds| - 1]))
  }

  /** end_op starts the commit; commit does nothing for an empty list; it empties the list before the last header write. */
  function LockPc(s: State, a: A.Action): Pc
    requires A.Enabled(s.log, a)
  {
    if a.End? && A.Do(s.log, a).committing && s.log.blocks != [] then Logging(0)
    else if a.Clear? && s.pc != Idle then Erasing
    else s.pc
  }

  ghost function Wrote(s: State, b: nat, data: CrashLog.Block): B.Cache
    requires exists x :: Held(s.cache, b, x)
  {
    B.Do(s.cache, B.WriteData(b, data))
  }

  ghost function Do(lay: Layout, s: State, a: Action): State
    requires Enabled(lay, s, a)
  {
    match a
    case Lock(a) => s.(log := A.Do(s.log, a), pc := LockPc(s, a))
    case Store(p, b, data) => s.(log := A.Do(s.log, A.Append(p)), cache := B.Do(s.cache, B.LogData(b, data)))
    case Buffer(a) => s.(cache := B.Do(s.cache, a))
    case CopyToLog(to, from) => s.(cache := Wrote(s, to, s.cache.bufs[from].data), pc := Logging(s.pc.i + 1))
    case WriteHead(b) =>
      var c := Wrote(s, b, PutHeader(s.cache.bufs[b].data, s.log.blocks));
      if s.pc == Erasing then s.(cache := c, pc := Idle) else s.(cache := c, pc := Installing(0), home := s.cache.contents)
    case CopyHome(l, d) => s.(cache := Wrote(s, d, s.cache.bufs[l].data), pc := Installing(s.pc.i + 1))
    case Reboot(ds, cuts, cache) => State(A.State(0, false, [], Outsiders(|s.log.roles|)), cache, Idle, s.home)
  }

  function Outsiders(n: nat): seq<A.Role> {
    seq(n, _ => A.Outside)
  }

  // ---------------------------------------------------------------- the invariant

  /** The blocks whose new data are not at home yet. */
  function Pending(s: State): seq<int> {
    if s.pc.Installing? && s.pc.i <= |s.log.blocks| then s.log.blocks[s.pc.i..] else s.log.blocks
  }

  ghost predicate Listed(lay: Layout, s: State) {
    && HomeBlocks(lay, |s.cache.disk|, s.log.blocks)
    && (forall p :: 0 <= p < |s.log.roles| && s.log.roles[p].PastGuard? ==>
          0 <= s.log.roles[p].b < |s.cache.disk| && !InLog(lay, s.log.roles[p].b))
  }

  /** The dirty buffers are those of the pending blocks. */
  ghost predicate Pinned(c: B.Cache, blocks: seq<int>) {
    && (forall b :: 0 <= b < |c.bufs| && c.bufs[b].dirty ==> c.bufs[b].blockno in blocks)
    && (forall x :: x in blocks ==> exists b :: B.Pins(c, b, x))
  }

  /** The first `n` log slots hold the new data. */
  ghost predicate InSlots(lay: Layout, c: B.Cache, blocks: seq<int>, n: nat) {
    && n <= |blocks| && lay.start + n < |c.disk| == |c.contents|
    && forall j :: 0 <= j < n ==> 0 <= blocks[j] < |c.disk| && c.disk[lay.start + 1 + j] == c.contents[blocks[j]]
  }

  ghost predicate InPhase(lay: Layout, s: State) {
    && (s.pc != Idle ==> s.log.committing)
    && (s.log.outstanding == 0 && s.log.blocks != [] ==> s.pc.Logging? || s.pc.Installing?)
    && match s.pc
       case Idle => Quiet(lay, s.cache.disk) && SameHome(lay, s.cache.disk, s.home)
       case Logging(i) =>
         && Quiet(lay, s.cache.disk) && SameHome(lay, s.cache.disk, s.home) && s.log.blocks != []
         && InSlots(lay, s.cache, s.log.blocks, i) && (i > 0 ==> |s.log.blocks| < NBUF)
       case Installing(i) =>
         && i <= |s.log.blocks| && |s.log.blocks| < NBUF && Named(lay, s.cache.disk) == s.log.blocks
         && SameHome(lay, s.cache.contents, s.home) && InSlots(lay, s.cache, s.log.blocks, |s.log.blocks|)
       case Erasing => s.log.blocks == [] && SameHome(lay, s.cache.disk, s.home)
  }

  /** The list in the header on disk, if that is one. */
  function Named(lay: Layout, d: CrashLog.Disk): seq<int> {
    if WellFormed(lay, d) then HeaderBlocks(d[lay.start]) else []
  }

  ghost predicate Inv(lay: Layout, s: State) {
    && lay.size == LOGSIZE && A.Inv(s.log) && B.Inv(s.cache)
    && Represents(lay, s.cache.disk, s.home)
    && Listed(lay, s) && Pinned(s.cache, Pending(s)) && InPhase(lay, s)
  }

  // ---------------------------------------------------------------- what cache steps do to blocks

  lemma ReadingStep(c: B.Cache, a: B.Step)
    requires B.Inv(c) && B.Enabled(c, a) && !a.LogData? && !a.WriteData?
    ensures var d := B.Do(c, a);
            && d.disk == c.disk && d.contents == c.contents && |d.bufs| == NBUF
            && (forall b :: 0 <= b < NBUF ==> (d.bufs[b].dirty <==> c.bufs[b].dirty))
            && (forall b :: 0 <= b < NBUF && c.bufs[b].dirty ==> d.bufs[b].blockno == c.bufs[b].blockno)
  {
  }

  lemma LoggingStep(c: B.Cache, b: nat, data: CrashLog.Block)
    requires B.Inv(c) && B.Enabled(c, B.LogData(b, data))
    ensures var d := B.Do(c, B.LogData(b, data));
            && d.disk == c.disk && d.contents == c.contents[c.bufs[b].blockno := data] && |d.bufs| == NBUF
            && (forall e :: 0 <= e < NBUF ==> (d.bufs[e].dirty <==> c.bufs[e].dirty || e == b))
            && (forall e :: 0 <= e < NBUF ==> d.bufs[e].blockno == c.bufs[e].blockno)
  {
  }

  lemma WritingStep(s: State, b: nat, x: int, data: CrashLog.Block)
    requires B.Inv(s.cache) && Held(s.cache, b, x)
    ensures var c, d := s.cache, Wrote(s, b, data);
            && B.Inv(d)
            && d.disk == c.disk[x := data] && d.contents == c.contents[x := data] && |d.bufs| == NBUF
            && (forall e :: 0 <= e < NBUF ==> (d.bufs[e].dirty <==> c.bufs[e].dirty && e != b))
            && (forall e :: 0 <= e < NBUF ==> d.bufs[e].blockno == c.bufs[e].blockno)
  {
    B.StepKeeps(s.cache, B.WriteData(b, data));
  }

  /** A buffer that is held has the block's last data, and these are on disk unless the block is pending. */
  lemma HeldData(c: B.Cache, b: nat, x: int, blocks: seq<int>)
    requires B.Inv(c) && Held(c, b, x) && Pinned(c, blocks)
    ensures c.bufs[b].data == c.contents[x]
    ensures x !in blocks ==> c.disk[x] == c.contents[x] && !c.bufs[b].dirty
  {
  }

  // ---------------------------------------------------------------- counting buffers

  ghost function DirtyBufs(c: B.Cache): set<nat> {
    set b: nat | b < |c.bufs| && c.bufs[b].dirty
  }

  ghost function BlocksOf(c: B.Cache, bs: set<nat>): set<int>
    requires forall b :: b in bs ==> b < |c.bufs|
  {
    set b | b in bs :: c.bufs[b].blockno
  }

  lemma {:induction false} BlocksOfSize(c: B.Cache, bs: set<nat>)
    requires forall b :: b in bs ==> b < |c.bufs|
    requires forall b, e :: b in bs && e in bs && c.bufs[b].blockno == c.bufs[e].blockno ==> b == e
    ensures |BlocksOf(c, bs)| == |bs|
    decreases |bs|
  {
    if bs != {} {
      var b :| b in bs;
      BlocksOfSize(c, bs - {b});
      assert BlocksOf(c, bs) == BlocksOf(c, bs - {b}) + {c.bufs[b].blockno};
    } else {
      assert BlocksOf(c, bs) == {};
    }
  }

  /** There are as many dirty buffers as pending blocks. */
  lemma PinCount(c: B.Cache, blocks: seq<int>)
    requires B.Inv(c) && Pinned(c, blocks)
    requires forall i, j :: 0 <= i < j < |blocks| ==> blocks[i] != blocks[j]
    ensures |DirtyBufs(c)| == |blocks|
  {
    forall b, e | b in DirtyBufs(c) && e in DirtyBufs(c) && c.bufs[b].blockno == c.bufs[e].blockno
      ensures b == e
    {
      assert B.OnDisk(c, b) && B.OnDisk(c, e);
    }
    BlocksOfSize(c, DirtyBufs(c));
    forall x | x in blocks
      ensures x in BlocksOf(c, DirtyBufs(c))
    {
      var b :| B.Pins(c, b, x);
      assert b in DirtyBufs(c);
    }
    assert BlocksOf(c, DirtyBufs(c)) == set x | x in blocks;
    ListSize(blocks);
  }

  ghost function AllBufs(n: nat): (r: set<nat>)
    ensures |r| == n && forall b :: b in r <==> 0 <= b < n
  {
    if n == 0 then {} else AllBufs(n - 1) + {n - 1}
  }

  lemma CleanCount(c: B.Cache, n: nat)
    requires |c.bufs| == n
    ensures |DirtyBufs(c)| <= n
    ensures (exists b :: 0 <= b < n && !c.bufs[b].dirty) <==> |DirtyBufs(c)| < n
  {
    SubsetSize(DirtyBufs(c), AllBufs(n));
    if b: nat :| b < n && !c.bufs[b].dirty {
      SubsetSize(DirtyBufs(c) + {b}, AllBufs(n));
    } else {
      assert DirtyBufs(c) == AllBufs(n);
    }
  }

  /** Some buffer is clean if and only if fewer blocks than buffers are pending. */
  lemma CleanBuffer(c: B.Cache, blocks: seq<int>)
    requires B.Inv(c) && Pinned(c, blocks)
    requires forall i, j :: 0 <= i < j < |blocks| ==> blocks[i] != blocks[j]
    ensures |c.bufs| == NBUF && |blocks| <= NBUF
    ensures (exists b :: 0 <= b < NBUF && !c.bufs[b].dirty) <==> |blocks| < NBUF
  {
    hide DirtyBufs, Pinned, B.Sorted, B.Unique, B.Coherent;
    PinCount(c, blocks);
    CleanCount(c, NBUF);
  }

  // ---------------------------------------------------------------- sections under log.lock

  lemma GuardsFromBefore(s: A.State, a: A.Action, p: nat)
    requires A.Enabled(s, a) && p < |A.Do(s, a).roles| && A.Do(s, a).roles[p].PastGuard?
    ensures p < |s.roles| && (A.Do(s, a).roles[p] == s.roles[p] || (a.Check? && A.Do(s, a).roles[p].b == a.b))
  {
  }

  lemma CommitterCommits(s: A.State, p: nat)
    requires A.Inv(s) && p < |s.roles| && A.Commits(s.roles[p]) == 1
    ensures s.committing && s.outstanding == 0
  {
    A.SumBounds(A.Commits, s.roles, p);
  }

  lemma OperatorOperates(s: A.State, p: nat)
    requires A.Inv(s) && p < |s.roles| && A.Operating(s.roles[p])
    ensures !s.committing && s.outstanding > 0
  {
    A.SumBounds(A.Active, s.roles, p);
  }

  lemma ListedAfterLock(lay: Layout, s: State, a: A.Action)
    requires Inv(lay, s) && Enabled(lay, s, Lock(a))
    ensures Listed(lay, Do(lay, s, Lock(a)))
  {
    hide A.Inv, B.Inv, Represents, Pinned, InPhase;
    var t := Do(lay, s, Lock(a));
    forall p | 0 <= p < |t.log.roles| && t.log.roles[p].PastGuard?
      ensures 0 <= t.log.roles[p].b < |t.cache.disk| && !InLog(lay, t.log.roles[p].b)
    {
      GuardsFromBefore(s.log, a, p);
    }
  }

  /** With nothing pending the disk has all the last data. */
  lemma AllOnDisk(c: B.Cache)
    requires B.Inv(c) && Pinned(c, [])
    ensures c.disk == c.contents
  {
  }

  lemma ClearEnds(lay: Layout, s: State, p: nat)
    requires Inv(lay, s) && Enabled(lay, s, Lock(A.Clear(p)))
    ensures Pending(s) == [] && SameHome(lay, s.cache.disk, s.home)
    ensures s.pc == Idle ==> s.log.blocks == []
  {
    hide A.Inv, B.Inv, Represents, Pinned, Quiet;
    CommitterCommits(s.log, p);
    if s.pc != Idle {
      assert Pending(s) == [];
      AllOnDisk(s.cache);
    }
  }

  lemma EndStarts(lay: Layout, s: State, p: nat)
    requires Inv(lay, s) && Enabled(lay, s, Lock(A.End(p)))
    ensures var t := A.Do(s.log, A.End(p));
            && s.pc == Idle && t.blocks == s.log.blocks
            && (t.outstanding == 0 ==> t.committing)
    ensures InSlots(lay, s.cache, s.log.blocks, 0)
  {
    hide B.Sorted, B.Unique, B.Coherent, Represents, Pinned;
    OperatorOperates(s.log, p);
    A.EndKeeps(s.log, p);
  }

  lemma LockKeeps(lay: Layout, s: State, a: A.Action)
    requires Inv(lay, s) && Enabled(lay, s, Lock(a))
    ensures Inv(lay, Do(lay, s, Lock(a)))
  {
    hide B.Inv, Represents, Pinned, Quiet, SameHome, InSlots, Listed;
    A.StepKeeps(s.log, a);
    ListedAfterLock(lay, s, a);
    match a
    case Clear(p) => ClearEnds(lay, s, p);
    case End(p) => EndStarts(lay, s, p);
    case Finish(p) => CommitterCommits(s.log, p);
    case Check(p, _) =>
    case Enter(_) =>
    case Wake(_) =>
    case TryBegin(_) => A.SumScaled(s.log.roles);
  }

  // ---------------------------------------------------------------- steps on buffers

  lemma StoreKeeps(lay: Layout, s: State, p: nat, b: nat, data: CrashLog.Block)
    requires Inv(lay, s) && Enabled(lay, s, Store(p, b, data))
    ensures Inv(lay, Do(lay, s, Store(p, b, data)))
  {
    OperatorOperates(s.log, p);
    A.AppendKeeps(s.log, p);
    StoreLists(lay, s, p, b, data);
    StorePins(lay, s, p, b, data);
    B.StepKeeps(s.cache, B.LogData(b, data));
    LoggingStep(s.cache, b, data);
    hide A.Inv, B.Inv, Represents, Pinned, Quiet, SameHome, Listed, B.Do;
  }

  lemma StoreLists(lay: Layout, s: State, p: nat, b: nat, data: CrashLog.Block)
    requires Inv(lay, s) && Enabled(lay, s, Store(p, b, data)) && A.Inv(A.Do(s.log, A.Append(p)))
    ensures Listed(lay, Do(lay, s, Store(p, b, data)))
  {
    hide B.Inv, Represents, Pinned, InPhase, B.Do;
    var t := Do(lay, s, Store(p, b, data));
    LoggingStep(s.cache, b, data);
    A.SumScaled(t.log.roles);
    forall q | 0 <= q < |t.log.roles| && t.log.roles[q].PastGuard?
      ensures 0 <= t.log.roles[q].b < |t.cache.disk| && !InLog(lay, t.log.roles[q].b)
    {
      GuardsFromBefore(s.log, A.Append(p), q);
    }
  }

  lemma StorePins(lay: Layout, s: State, p: nat, b: nat, data: CrashLog.Block)
    requires Inv(lay, s) && Enabled(lay, s, Store(p, b, data)) && s.pc == Idle
    ensures Pinned(Do(lay, s, Store(p, b, data)).cache, Pending(Do(lay, s, Store(p, b, data))))
  {
    hide A.Inv, B.Inv, Represents, InPhase, B.Do;
    var t := Do(lay, s, Store(p, b, data));
    LoggingStep(s.cache, b, data);
    forall x | x in Pending(t)
      ensures exists e :: B.Pins(t.cache, e, x)
    {
      if x == s.log.roles[p].b {
        assert B.Pins(t.cache, b, x);
      } else {
        var e :| B.Pins(s.cache, e, x);
        assert B.Pins(t.cache, e, x);
      }
    }
  }

  lemma BufferKeeps(lay: Layout, s: State, a: B.Step)
    requires Inv(lay, s) && Enabled(lay, s, Buffer(a))
    ensures Inv(lay, Do(lay, s, Buffer(a)))
  {
    hide A.Inv, B.Inv, Represents, Quiet, SameHome, B.Do, B.Enabled, Pinned;
    B.StepKeeps(s.cache, a);
    ReadingStep(s.cache, a);
    ReadingPins(s.cache, a, Pending(s));
  }

  lemma ReadingPins(c: B.Cache, a: B.Step, blocks: seq<int>)
    requires B.Inv(c) && B.Enabled(c, a) && !a.LogData? && !a.WriteData? && Pinned(c, blocks)
    ensures Pinned(B.Do(c, a), blocks)
  {
    hide B.Sorted, B.Unique, B.Coherent, B.Do, B.Enabled;
    ReadingStep(c, a);
    var d := B.Do(c, a);
    forall x | x in blocks
      ensures exists e :: B.Pins(d, e, x)
    {
      var e :| B.Pins(c, e, x);
      assert B.Pins(d, e, x);
    }
  }

  // ---------------------------------------------------------------- the writes of commit

  lemma LogSlot(lay: Layout, s: State, to: nat)
    requires Inv(lay, s) && s.pc.Logging? && s.pc.i < |s.log.blocks| && Held(s.cache, to, lay.start + 1 + s.pc.i)
    ensures |s.log.blocks| < NBUF && InLog(lay, lay.start + 1 + s.pc.i) && !s.cache.bufs[to].dirty
  {
    hide A.Inv, B.Sorted, B.Unique, B.Coherent, Represents, Quiet, SameHome;
    if s.pc.i == 0 {
      assert InLog(lay, lay.start + 1);
      assert !s.cache.bufs[to].dirty;
      CleanBuffer(s.cache, s.log.blocks);
    }
  }

  lemma StillPinned(c: B.Cache, d: B.Cache, b: nat, blocks: seq<int>)
    requires |c.bufs| == |d.bufs| == NBUF && b < NBUF && !c.bufs[b].dirty && Pinned(c, blocks)
    requires forall e :: 0 <= e < NBUF ==> (d.bufs[e].dirty <==> c.bufs[e].dirty && e != b)
    requires forall e :: 0 <= e < NBUF ==> d.bufs[e].blockno == c.bufs[e].blockno
    ensures Pinned(d, blocks)
  {
    forall x | x in blocks
      ensures exists e :: B.Pins(d, e, x)
    {
      var e :| B.Pins(c, e, x);
      assert B.Pins(d, e, x);
    }
  }

  /** A write to a data block of an empty log changes nothing the disk stands for. */
  lemma QuietWrite(lay: Layout, d: CrashLog.Disk, h: CrashLog.Disk, x: int, data: CrashLog.Block)
    requires Quiet(lay, d) && SameHome(lay, d, h) && InLog(lay, x) && x != lay.start
    ensures x < |d| && Quiet(lay, d[x := data]) && SameHome(lay, d[x := data], h) && Represents(lay, d[x := data], h)
  {
    QuietRepresents(lay, d[x := data], h);
  }

  lemma SlotFilled(lay: Layout, c: B.Cache, d: B.Cache, blocks: seq<int>, i: nat)
    requires InSlots(lay, c, blocks, i) && i < |blocks| < lay.size && HomeBlocks(lay, |c.disk|, blocks)
    requires var x, data := lay.start + 1 + i, c.contents[blocks[i]];
             d.disk == c.disk[x := data] && d.contents == c.contents[x := data]
    ensures InSlots(lay, d, blocks, i + 1)
  {
  }

  lemma CopyToLogKeeps(lay: Layout, s: State, to: nat, from: nat)
    requires Inv(lay, s) && Enabled(lay, s, CopyToLog(to, from))
    ensures Inv(lay, Do(lay, s, CopyToLog(to, from)))
  {
    hide A.Inv, B.Inv, Represents, Quiet, SameHome, Pinned, B.Do, InSlots, InLog, HomeBlocks, Wrote;
    var x, i := lay.start + 1 + s.pc.i, s.pc.i;
    var data := s.cache.bufs[from].data;
    LogSlot(lay, s, to);
    HeldData(s.cache, from, s.log.blocks[i], s.log.blocks);
    WritingStep(s, to, x, data);
    SizedCache(s.cache);
    StillPinned(s.cache, Wrote(s, to, data), to, s.log.blocks);
    QuietWrite(lay, s.cache.disk, s.home, x, data);
    SlotFilled(lay, s.cache, Wrote(s, to, data), s.log.blocks, i);
    ListedSame(lay, s, Do(lay, s, CopyToLog(to, from)));
    hide Listed;
  }

  lemma SizedCache(c: B.Cache)
    requires B.Inv(c)
    ensures |c.bufs| == NBUF && |c.contents| == |c.disk|
  {
  }

  lemma ListedSame(lay: Layout, s: State, t: State)
    requires Listed(lay, s) && t.log == s.log && |t.cache.disk| == |s.cache.disk|
    ensures Listed(lay, t)
  {
  }

  /** A block that is not pending has its last data on disk. */
  lemma OnDiskUnlessPending(c: B.Cache, blocks: seq<int>, x: int)
    requires B.Inv(c) && Pinned(c, blocks) && 0 <= x < |c.disk| && x !in blocks
    ensures |c.contents| == |c.disk| && c.disk[x] == c.contents[x]
  {
  }

  /** The header write that commits: from then on the disk stands for the last data of every block. */
  lemma MarkCommits(lay: Layout, s: State, h: CrashLog.Block)
    requires Inv(lay, s) && s.pc == Logging(|s.log.blocks|) && h == PutHeader(s.cache.disk[lay.start], s.log.blocks)
    ensures var d := s.cache.disk[lay.start := h];
            Represents(lay, d, s.cache.contents) && Named(lay, d) == s.log.blocks
  {
    hide A.Inv, B.Sorted, B.Unique, B.Coherent, Pinned, PutHeader, GoodCount, HeaderBlocks;
    var d := s.cache.disk[lay.start := h];
    HeaderRoundTrip(s.cache.disk[lay.start], s.log.blocks);
    forall x | 0 <= x < |d| && !InLog(lay, x) && x !in s.log.blocks
      ensures d[x] == s.cache.contents[x]
    {
      OnDiskUnlessPending(s.cache, s.log.blocks, x);
    }
  }

  lemma WriteHeadKeeps(lay: Layout, s: State, b: nat)
    requires Inv(lay, s) && Enabled(lay, s, WriteHead(b)) && s.pc != Erasing
    ensures Inv(lay, Do(lay, s, WriteHead(b)))
  {
    hide A.Inv, B.Inv, Represents, Pinned, B.Do, PutHeader, Quiet, Named, InPhase, Wrote;
    var h := PutHeader(s.cache.bufs[b].data, s.log.blocks);
    var t := Do(lay, s, WriteHead(b));
    assert InLog(lay, lay.start);
    HeldData(s.cache, b, lay.start, s.log.blocks);
    MarkCommits(lay, s, h);
    WritingStep(s, b, lay.start, h);
    SizedCache(s.cache);
    StillPinned(s.cache, Wrote(s, b, h), b, s.log.blocks);
    ListedSame(lay, s, t);
    MarkedPhase(lay, s, t, h);
    assert s.log.blocks[0..] == s.log.blocks;
    hide Listed;
  }

  lemma MarkedPhase(lay: Layout, s: State, t: State, h: CrashLog.Block)
    requires Inv(lay, s) && s.pc == Logging(|s.log.blocks|) && t.log == s.log && t.pc == Installing(0)
    requires t.home == s.cache.contents && lay.start < |s.cache.disk| == |s.cache.contents|
    requires t.cache.disk == s.cache.disk[lay.start := h] && t.cache.contents == s.cache.contents[lay.start := h]
    requires Named(lay, t.cache.disk) == s.log.blocks
    ensures InPhase(lay, t)
  {
    hide A.Inv, B.Inv, Represents, Pinned, Quiet, Named;
    assert InLog(lay, lay.start);
  }

  lemma EraseKeeps(lay: Layout, s: State, b: nat)
    requires Inv(lay, s) && Enabled(lay, s, WriteHead(b)) && s.pc == Erasing
    ensures Inv(lay, Do(lay, s, WriteHead(b)))
  {
    hide A.Inv, B.Sorted, B.Unique, B.Coherent, Pinned, B.Do, PutHeader;
    var h := PutHeader(s.cache.bufs[b].data, []);
    HeaderRoundTrip(s.cache.bufs[b].data, []);
    HeldData(s.cache, b, lay.start, []);
    WritingStep(s, b, lay.start, h);
    StillPinned(s.cache, Wrote(s, b, h), b, []);
    QuietRepresents(lay, s.cache.disk[lay.start := h], s.home);
  }

  /** A block that has been written home is not pinned any more; the others are. */
  lemma Unpinned(c: B.Cache, d: B.Cache, b: nat, blocks: seq<int>, rest: seq<int>)
    requires B.Inv(c) && blocks != [] && blocks[0] !in rest && blocks == [blocks[0]] + rest
    requires Pinned(c, blocks) && Held(c, b, blocks[0]) && |d.bufs| == NBUF
    requires forall e :: 0 <= e < NBUF ==> (d.bufs[e].dirty <==> c.bufs[e].dirty && e != b)
    requires forall e :: 0 <= e < NBUF ==> d.bufs[e].blockno == c.bufs[e].blockno
    ensures Pinned(d, rest)
  {
    hide B.Sorted;
    forall x | x in rest
      ensures exists e :: B.Pins(d, e, x)
    {
      var k :| 0 <= k < |rest| && rest[k] == x;
      assert blocks[k + 1] == x && x in blocks;
      var e :| B.Pins(c, e, x);
      assert B.Pins(d, e, x);
    }
    forall e | 0 <= e < NBUF && d.bufs[e].dirty
      ensures d.bufs[e].blockno in rest
    {
      assert B.OnDisk(c, e) && c.bufs[e].blockno != blocks[0];
    }
  }

  lemma InstallWrite(lay: Layout, d: CrashLog.Disk, h: CrashLog.Disk, x: int, data: CrashLog.Block)
    requires Represents(lay, d, h) && x in HeaderBlocks(d[lay.start])
    ensures 0 <= x < |d| && Represents(lay, d[x := data], h)
  {
  }

  lemma HomeData(lay: Layout, s: State, l: nat)
    requires Inv(lay, s) && s.pc.Installing? && s.pc.i < |s.log.blocks| && Held(s.cache, l, lay.start + 1 + s.pc.i)
    ensures var x := s.log.blocks[s.pc.i];
            && 0 <= x < |s.cache.contents| == |s.cache.disk| && !InLog(lay, x) && WellFormed(lay, s.cache.disk)
            && x in HeaderBlocks(s.cache.disk[lay.start])
            && s.cache.bufs[l].data == s.cache.contents[x]
  {
    hide A.Inv, B.Sorted, B.Unique, B.Coherent, Pinned, Quiet, Represents, GoodBlocks;
    Represented(lay, s.cache.disk, s.home);
    SlotNotPending(lay, s);
    HeldData(s.cache, l, lay.start + 1 + s.pc.i, Pending(s));
  }

  lemma Represented(lay: Layout, d: CrashLog.Disk, h: CrashLog.Disk)
    requires Represents(lay, d, h)
    ensures WellFormed(lay, d)
  {
  }

  lemma SlotNotPending(lay: Layout, s: State)
    requires Inv(lay, s) && s.pc.Installing? && s.pc.i < |s.log.blocks|
    ensures lay.start + 1 + s.pc.i !in Pending(s)
  {
    hide A.Inv, B.Inv, Represents, Pinned, InSlots, SameHome;
    assert InLog(lay, lay.start + 1 + s.pc.i);
    assert forall y :: y in Pending(s) ==> y in s.log.blocks;
  }

  lemma CopyHomePhase(lay: Layout, s: State, t: State)
    requires Inv(lay, s) && s.pc.Installing? && s.pc.i < |s.log.blocks| && t.log == s.log && t.home == s.home
    requires t.pc == Installing(s.pc.i + 1) && t.cache.contents == s.cache.contents
    requires var x := s.log.blocks[s.pc.i];
             0 <= x < |s.cache.disk| && !InLog(lay, x) && t.cache.disk == s.cache.disk[x := s.cache.contents[x]]
    requires Represents(lay, t.cache.disk, t.home)
    ensures InPhase(lay, t) && Listed(lay, t)
  {
    hide A.Inv, B.Inv, Pinned, Quiet, Represents, GoodBlocks, HomeBlocks, GoodCount, HeaderBlocks;
    Represented(lay, s.cache.disk, s.home);
    Represented(lay, t.cache.disk, t.home);
    assert t.cache.disk[lay.start] == s.cache.disk[lay.start];
  }

  lemma CopyHomeKeeps(lay: Layout, s: State, l: nat, d: nat)
    requires Inv(lay, s) && Enabled(lay, s, CopyHome(l, d))
    ensures Inv(lay, Do(lay, s, CopyHome(l, d)))
  {
    hide A.Inv, B.Sorted, B.Unique, B.Coherent, Represents, Pinned, B.Do, InPhase, Listed;
    var x, i, blocks := s.log.blocks[s.pc.i], s.pc.i, s.log.blocks;
    HomeData(lay, s, l);
    WritingStep(s, d, x, s.cache.bufs[l].data);
    InstallWrite(lay, s.cache.disk, s.home, x, s.cache.bufs[l].data);
    var t := Do(lay, s, CopyHome(l, d));
    assert t.cache.contents == s.cache.contents;
    CopyHomePhase(lay, s, t);
    InstallPins(lay, s, t, d);
  }

  lemma InstallPins(lay: Layout, s: State, t: State, d: nat)
    requires Inv(lay, s) && s.pc.Installing? && s.pc.i < |s.log.blocks| && Held(s.cache, d, s.log.blocks[s.pc.i])
    requires t.pc == Installing(s.pc.i + 1) && t.log == s.log && |t.cache.bufs| == NBUF
    requires forall e :: 0 <= e < NBUF ==> (t.cache.bufs[e].dirty <==> s.cache.bufs[e].dirty && e != d)
    requires forall e :: 0 <= e < NBUF ==> t.cache.bufs[e].blockno == s.cache.bufs[e].blockno
    ensures Pinned(t.cache, Pending(t))
  {
    hide A.Inv, B.Sorted, B.Unique, B.Coherent, Represents, Pinned;
    var i, blocks := s.pc.i, s.log.blocks;
    assert blocks[i..] == [blocks[i]] + blocks[i + 1..];
    Unpinned(s.cache, t.cache, d, Pending(s), Pending(t));
  }

  // ---------------------------------------------------------------- crashes

  /** Recoveries that are cut, and one that completes. */
  lemma RecoversTo(lay: Layout, h: CrashLog.Disk, ds: seq<CrashLog.Disk>, cuts: seq<nat>)
    requires CrashLog.History(lay, ds, Recoveries(cuts)) && Represents(lay, ds[0], h)
    ensures WellFormed(lay, ds[|cuts|])
    ensures var r := Apply(ds[|cuts|], RecoveryWrites(lay, ds[|cuts|]));
            Quiet(lay, r) && SameHome(lay, r, h) && Represents(lay, r, h)
  {
    hide Apply, RecoveryWrites, Quiet, SameHome, CrashLog.Enabled, CrashLog.Step, WellFormed;
    HistoryRefines(lay, ds, Recoveries(cuts), h);
    RecoveriesChangeNothing(h, cuts);
    RecoveryCompletes(lay, ds[|cuts|], h);
    Represented(lay, ds[|cuts|], h);
  }

  lemma RebootKeeps(lay: Layout, s: State, a: Action)
    requires Inv(lay, s) && Enabled(lay, s, a) && a.Reboot?
    ensures Inv(lay, Do(lay, s, a))
  {
    hide A.Inv, B.Inv, Represents, Apply, RecoveryWrites, Pinned, SameHome, CrashLog.Enabled, CrashLog.Step, Fresh;
    RecoversTo(lay, s.home, a.ds, a.cuts);
    A.InitialInv(Do(lay, s, a).log);
    NothingPinned(a.cache);
  }

  lemma NothingPinned(c: B.Cache)
    requires Fresh(c)
    ensures B.Inv(c) && Pinned(c, [])
  {
  }

  lemma StepKeeps(lay: Layout, s: State, a: Action)
    requires Inv(lay, s) && Enabled(lay, s, a)
    ensures Inv(lay, Do(lay, s, a))
  {
    hide Inv, Enabled, Do;
    match a
    case Lock(op) => LockKeeps(lay, s, op);
    case Store(p, b, data) => StoreKeeps(lay, s, p, b, data);
    case Buffer(io) => BufferKeeps(lay, s, io);
    case CopyToLog(to, from) => CopyToLogKeeps(lay, s, to, from);
    case WriteHead(b) =>
      if s.pc == Erasing {
        EraseKeeps(lay, s, b);
      } else {
        WriteHeadKeeps(lay, s, b);
      }
    case CopyHome(l, d) => CopyHomeKeeps(lay, s, l, d);
    case Reboot(_, _, _) => RebootKeeps(lay, s, a);
  }

  // ---------------------------------------------------------------- every run

  /** A disk with an empty log, after boot. */
  ghost predicate Start(lay: Layout, s: State) {
    && lay.size == LOGSIZE && A.Initial(s.log) && Fresh(s.cache) && Quiet(lay, s.cache.disk)
    && s.pc == Idle && s.home == s.cache.disk
  }

  ghost predicate Run(lay: Layout, ss: seq<State>, acts: seq<Action>) {
    && |ss| == |acts| + 1 && Start(lay, ss[0])
    && forall k :: 0 <= k < |acts| ==> Enabled(lay, ss[k], acts[k]) && ss[k + 1] == Do(lay, ss[k], acts[k])
  }

  lemma StartInv(lay: Layout, s: State)
    requires Start(lay, s)
    ensures Inv(lay, s)
  {
    A.InitialInv(s.log);
    NothingPinned(s.cache);
    QuietRepresents(lay, s.cache.disk, s.home);
  }

  lemma {:induction false} RunInv(lay: Layout, ss: seq<State>, acts: seq<Action>, k: nat)
    requires Run(lay, ss, acts) && k < |ss|
    ensures Inv(lay, ss[k])
  {
    hide Inv, Enabled, Do, Start;
    if k == 0 {
      StartInv(lay, ss[0]);
    } else {
      RunInv(lay, ss, acts, k - 1);
      StepKeeps(lay, ss[k - 1], acts[k - 1]);
    }
  }

  // ---------------------------------------------------------------- whether commit gets its buffers

  /** bget finds or makes a buffer for the block. */
  ghost predicate Available(c: B.Cache, x: int) {
    B.Sized(c) && x >= 0 && (B.Cached(c, DiskQueue.ROOTDEV, x) || exists b :: 0 <= b < NBUF && B.Eligible(c, b))
  }

  lemma NoneAvailable(lay: Layout, s: State, x: int)
    requires Inv(lay, s) && InLog(lay, x) && |Pending(s)| == NBUF
    ensures !Available(s.cache, x)
  {
    hide A.Inv, B.Sorted, B.Unique, B.Coherent, Represents, InPhase;
    assert forall y :: y in Pending(s) ==> y in s.log.blocks;
    CleanBuffer(s.cache, Pending(s));
  }

  /**
   In every state of every run: the buffer of a block that is logged and not yet installed is in the cache. A block of
   the log area gets no buffer if as many blocks as there are buffers are pending; if nobody holds a buffer, it gets
   one exactly when fewer are.
   */
  lemma CommitBuffersExactly(lay: Layout, ss: seq<State>, acts: seq<Action>, k: nat, x: int)
    requires Run(lay, ss, acts) && k < |ss| && InLog(lay, x)
    ensures forall y :: y in Pending(ss[k]) ==> B.Cached(ss[k].cache, DiskQueue.ROOTDEV, y)
    ensures |ss[k].cache.refs| == NBUF && |Pending(ss[k])| <= NBUF
    ensures |Pending(ss[k])| == NBUF ==> !Available(ss[k].cache, x)
    ensures (forall b :: 0 <= b < NBUF ==> ss[k].cache.refs[b] == 0) ==>
              (Available(ss[k].cache, x) <==> |Pending(ss[k])| < NBUF)
  {
    hide Run, A.Inv, B.Sorted, B.Unique, Represents, InPhase;
    RunInv(lay, ss, acts, k);
    var s := ss[k];
    forall y | y in Pending(s)
      ensures B.Cached(s.cache, DiskQueue.ROOTDEV, y)
    {
      var b :| B.Pins(s.cache, b, y);
      assert B.OnDisk(s.cache, b) && B.Is(s.cache.bufs[b], DiskQueue.ROOTDEV, y);
    }
    CleanBuffer(s.cache, Pending(s));
    if |Pending(s)| == NBUF {
      NoneAvailable(lay, s, x);
    } else if forall b :: 0 <= b < NBUF ==> s.cache.refs[b] == 0 {
      var b :| 0 <= b < NBUF && !s.cache.bufs[b].dirty;
      assert B.Eligible(s.cache, b);
    }
  }

  /** Every write a commit makes belongs to a transaction that fits the log area. */
  lemma WritesFit(lay: Layout, ss: seq<State>, acts: seq<Action>, k: nat)
    requires Run(lay, ss, acts) && k < |acts|
    requires acts[k].CopyToLog? || acts[k].CopyHome? || (acts[k].WriteHead? && ss[k].pc != Erasing)
    ensures GoodBlocks(lay, |ss[k].cache.disk|, ss[k].log.blocks) && ss[k].log.blocks != []
  {
    hide Inv, Enabled, Do, Start;
    RunInv(lay, ss, acts, k);
    RunStep(lay, ss, acts, k);
    WriteFits(lay, ss[k], acts[k]);
  }

  lemma WriteFits(lay: Layout, s: State, a: Action)
    requires Inv(lay, s) && Enabled(lay, s, a)
    requires a.CopyToLog? || a.CopyHome? || (a.WriteHead? && s.pc != Erasing)
    ensures GoodBlocks(lay, |s.cache.disk|, s.log.blocks) && s.log.blocks != []
  {
    hide A.Inv, B.Inv, Represents, Pinned, Quiet, SameHome, InSlots;
    if a.CopyToLog? {
      LogSlot(lay, s, a.to);
    }
  }

  lemma OverrunStep(lay: Layout, s: State, a: Action)
    requires Inv(lay, s) && Enabled(lay, s, a) && !a.Reboot? && |s.log.blocks| == LOGSIZE
    ensures var t := Do(lay, s, a);
            |t.log.blocks| == LOGSIZE && t.cache.disk == s.cache.disk && t.home == s.home
  {
    hide A.Inv, B.Inv, Represents, Pinned, Quiet, SameHome, InSlots, B.Do, B.Enabled;
    match a
    case Lock(op) =>
      if op.Clear? {
        ClearEnds(lay, s, op.p);
      }
    case Store(p, b, data) =>
      A.AppendKeeps(s.log, p);
      LoggingStep(s.cache, b, data);
    case Buffer(io) => ReadingStep(s.cache, io);
    case CopyToLog(to, _) => LogSlot(lay, s, to);
    case WriteHead(_) =>
    case CopyHome(_, _) =>
  }

  /**
   A transaction that overruns the log area: from the moment LOGSIZE blocks are listed nothing reaches the disk any
   more, and bread of any log block finds no buffer, so its commit ends in bget's panic before its first write.
   */
  lemma {:induction false} OverrunHalts(lay: Layout, ss: seq<State>, acts: seq<Action>, i: nat, j: nat, x: int)
    requires Run(lay, ss, acts) && i <= j < |ss| && |ss[i].log.blocks| == LOGSIZE && InLog(lay, x)
    requires forall k :: i <= k < j ==> !acts[k].Reboot?
    ensures |ss[j].log.blocks| == LOGSIZE && ss[j].cache.disk == ss[i].cache.disk && ss[j].home == ss[i].home
    ensures !Available(ss[j].cache, x)
    decreases j - i
  {
    hide Start, Enabled, Do, Available, Inv, InLog;
    RunInv(lay, ss, acts, j);
    if i < j {
      OverrunHalts(lay, ss, acts, i, j - 1, x);
      RunInv(lay, ss, acts, j - 1);
      RunStep(lay, ss, acts, j - 1);
      OverrunStep(lay, ss[j - 1], acts[j - 1]);
    }
    AllPending(lay, ss[j]);
    NoneAvailable(lay, ss[j], x);
  }

  lemma AllPending(lay: Layout, s: State)
    requires Inv(lay, s) && |s.log.blocks| == LOGSIZE
    ensures Pending(s) == s.log.blocks
  {
    hide A.Inv, B.Inv, Represents, Pinned, Quiet, SameHome, InSlots, Listed;
  }

  lemma RunStep(lay: Layout, ss: seq<State>, acts: seq<Action>, k: nat)
    requires Run(lay, ss, acts) && k < |acts|
    ensures Enabled(lay, ss[k], acts[k]) && ss[k + 1] == Do(lay, ss[k], acts[k])
  {
  }

  // ---------------------------------------------------------------- what a crash leaves

  /** The header write of a commit. */
  predicate Commits(s: State, a: Action) {
    a.WriteHead? && s.pc.Logging?
  }

  /**
   A crash in any state of any run, overrun or not: after recoveries that are cut anywhere, one that completes leaves
   the home blocks as they were at the last commit point, and an empty log.
   */
  lemma CrashSafety(lay: Layout, ss: seq<State>, acts: seq<Action>, k: nat, ds: seq<CrashLog.Disk>, cuts: seq<nat>)
    requires Run(lay, ss, acts) && k < |ss| && CrashLog.History(lay, ds, Recoveries(cuts)) && ds[0] == ss[k].cache.disk
    ensures WellFormed(lay, ds[|cuts|])
    ensures var r := Apply(ds[|cuts|], RecoveryWrites(lay, ds[|cuts|])); Quiet(lay, r) && SameHome(lay, r, ss[k].home)
  {
    hide Run, A.Inv, B.Inv, Apply, RecoveryWrites, Pinned, Listed, InPhase, Represents, Quiet, SameHome;
    RunInv(lay, ss, acts, k);
    RecoversTo(lay, ss[k].home, ds, cuts);
  }

  /**
   When end_op returns after its commit, and whenever else nothing is listed and no commit is at work, all that has
   been logged is on disk in its place, and it is what a crash leaves.
   */
  lemma Durable(lay: Layout, ss: seq<State>, acts: seq<Action>, k: nat)
    requires Run(lay, ss, acts) && k < |ss|
    requires (ss[k].log.blocks == [] && ss[k].pc == Idle) || (0 < k && acts[k - 1].Lock? && acts[k - 1].op.Finish?)
    ensures ss[k].cache.disk == ss[k].cache.contents && SameHome(lay, ss[k].cache.contents, ss[k].home)
  {
    hide Inv, Do, Enabled, Start;
    RunInv(lay, ss, acts, k);
    if 0 < k && acts[k - 1].Lock? && acts[k - 1].op.Finish? {
      RunStep(lay, ss, acts, k - 1);
      RunInv(lay, ss, acts, k - 1);
      FinishEmpties(lay, ss[k - 1], acts[k - 1]);
    }
    NothingListed(lay, ss[k]);
  }

  lemma NothingListed(lay: Layout, s: State)
    requires Inv(lay, s) && s.log.blocks == [] && s.pc == Idle
    ensures s.cache.disk == s.cache.contents && SameHome(lay, s.cache.contents, s.home)
  {
    hide A.Inv, B.Inv, Represents, Pinned, Quiet, SameHome;
    assert Pending(s) == [];
    AllOnDisk(s.cache);
  }

  lemma FinishEmpties(lay: Layout, s: State, a: Action)
    requires Inv(lay, s) && Enabled(lay, s, a) && a.Lock? && a.op.Finish?
    ensures Do(lay, s, a).log.blocks == [] && Do(lay, s, a).pc == Idle
  {
    hide A.Inv, B.Inv, Represents, Pinned, Quiet, SameHome;
    FinishedEmpty(s.log, a.op.p);
  }

  lemma FinishedEmpty(s: A.State, p: nat)
    requires A.Inv(s) && A.Enabled(s, A.Finish(p))
    ensures A.Do(s, A.Finish(p)).blocks == []
  {
    hide A.Sum;
    A.FinishKeeps(s, p);
    CommitterCommits(s, p);
    A.NoOtherCommitter(s.roles, p);
    assert A.Committing !in s.roles;
  }

  /** No commit point falls inside an operation. */
  lemma CommitAlone(lay: Layout, s: State, a: Action)
    requires Inv(lay, s) && Enabled(lay, s, a)
    ensures Commits(s, a) ==> s.log.outstanding == 0 && forall p :: 0 <= p < |s.log.roles| ==> !A.Operating(s.log.roles[p])
    ensures !Commits(s, a) ==> Do(lay, s, a).home == s.home
  {
    hide B.Inv, Represents, Pinned, Quiet, SameHome, InSlots, B.Do;
    if p :| 0 <= p < |s.log.roles| && A.Operating(s.log.roles[p]) {
      OperatorOperates(s.log, p);
    }
  }

  /**
   What a crash in state `k` goes back to: all that had been logged in some earlier state `j`, the last commit point or
   the start, when no operation was under way. So of every operation either all the blocks it logged are there or none.
   */
  lemma {:induction false} WholeOperations(lay: Layout, ss: seq<State>, acts: seq<Action>, k: nat) returns (j: nat)
    requires Run(lay, ss, acts) && k < |ss|
    ensures j <= k && ss[k].home == ss[j].cache.contents
    ensures forall p :: 0 <= p < |ss[j].log.roles| ==> !A.Operating(ss[j].log.roles[p])
    ensures j == 0 || (j < k && Commits(ss[j], acts[j]))
    ensures forall i :: j < i < k ==> !Commits(ss[i], acts[i])
  {
    hide Enabled, Do, Inv;
    if k == 0 {
      j := 0;
    } else {
      RunStep(lay, ss, acts, k - 1);
      RunInv(lay, ss, acts, k - 1);
      CommitAlone(lay, ss[k - 1], acts[k - 1]);
      if Commits(ss[k - 1], acts[k - 1]) {
        j := k - 1;
        CommitHome(lay, ss[k - 1], acts[k - 1]);
      } else {
        j := WholeOperations(lay, ss, acts, k - 1);
      }
    }
  }

  lemma CommitHome(lay: Layout, s: State, a: Action)
    requires Enabled(lay, s, a) && Commits(s, a)
    ensures Do(lay, s, a).home == s.cache.contents
  {
  }
}
