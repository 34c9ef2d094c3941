/**
 The log of log.c as an object: in-memory header, buffer contents and disk, updated in place by
 the loops of write_log, install_trans, read_head and write_head. Each method is proved to issue
 exactly the write sequence that CrashLog reasons about, in that order, so a crash inside a method
 is a cut of that sequence.
 */
module LogDevice {
  import opened CrashLog

  const MAXOPBLOCKS := 10

  /** begin_op's admission test. */
  predicate Admits(outstanding: int, committing: bool, n: int) {
    !committing && n + (outstanding + 1) * MAXOPBLOCKS <= LOGSIZE
  }

  /** log_write's panic tests; both are made before looking for an absorbing entry. */
  predicate LogWritePanics(n: int, outstanding: int, size: int) {
    n >= LOGSIZE || n >= size - 1 || outstanding < 1
  }

  datatype EndOutcome = CommittingPanic | StartCommit | WakeSleepers

  /** What an end_op finds when `outstanding` operations (itself included) were running. */
  function EndResult(outstanding: int, committing: bool): EndOutcome {
    if committing then CommittingPanic else if outstanding == 1 then StartCommit else WakeSleepers
  }

  /** log_write's list update: a block already listed is absorbed. */
  function Absorb(blocks: seq<int>, b: int): (r: seq<int>)
    ensures b in r && |blocks| <= |r| <= |blocks| + 1
    ensures forall x :: x in r <==> x == b || x in blocks
  {
    if b in blocks then blocks else blocks + [b]
  }

  lemma AbsorbKeepsDistinct(blocks: seq<int>, b: int)
    requires forall i, j :: 0 <= i < j < |blocks| ==> blocks[i] != blocks[j]
    ensures var r := Absorb(blocks, b); forall i, j :: 0 <= i < j < |r| ==> r[i] != r[j]
  {
  }

  type Cache = map<int, Block>

  /** What bread yields: the valid buffer if there is one, else the disk block. */
  function View(cache: Cache, disk: Disk, b: int): Block
    requires 0 <= b < |disk|
  {
    if b in cache then cache[b] else disk[b]
  }

  /** A buffer differs from its disk block only while it is in `pinned`. */
  predicate Coherent(cache: Cache, disk: Disk, pinned: seq<int>) {
    forall b :: b in cache ==> 0 <= b < |disk| && (b !in pinned ==> cache[b] == disk[b])
  }

  predicate SameView(lay: Layout, cache: Cache, disk: Disk, cache0: Cache, disk0: Disk) {
    && |disk| == |disk0|
    && (forall b :: 0 <= b < |disk| && !InLog(lay, b) ==> View(cache, disk, b) == View(cache0, disk0, b))
  }

  /** The buffer contents write_log copies into the log. */
  function Pinned(cache: Cache, disk: Disk, blocks: seq<int>): (r: seq<Block>)
    requires forall i :: 0 <= i < |blocks| ==> 0 <= blocks[i] < |disk|
    ensures |r| == |blocks|
  {
    seq(|blocks|, i requires 0 <= i < |blocks| => View(cache, disk, blocks[i]))
  }

  class Log {
    const lay: Layout
    /** What is on the device. */
    var disk: Disk
    /** Contents of the valid buffers. */
    var cache: Cache
    /** lh.block[0..lh.n]. */
    var lh: seq<int>
    var outstanding: int
    var committing: bool
    /** Every block write issued so far, in order. */
    ghost var trace: seq<Write>

    /** What every log_write keeps. */
    ghost predicate Listing()
      reads this
    {
      && WellFormed(lay, disk)
      && HomeBlocks(lay, |disk|, lh)
      && Coherent(cache, disk, lh)
    }

    /** The listed blocks also fit the log area. */
    ghost predicate Valid()
      reads this
    {
      Listing() && |lh| < lay.size
    }

    constructor (lay: Layout, disk: Disk)
      requires WellFormed(lay, disk)
      ensures Valid() && this.lay == lay && this.disk == disk
      ensures cache == map[] && lh == [] && outstanding == 0 && !committing && trace == []
    {
      this.lay := lay;
      this.disk := disk;
      cache := map[];
      lh := [];
      outstanding := 0;
      committing := false;
      trace := [];
    }

    method Bread(b: int) returns (data: Block)
      requires 0 <= b < |disk|
      modifies this`cache
      ensures data == View(old(cache), disk, b) && cache == old(cache)[b := data]
      ensures data == if b in old(cache) then old(cache)[b] else disk[b]
    {
      if b in cache {
        data := cache[b];
      } else {
        data := disk[b];
      }
      cache := cache[b := data];
    }

    method Bwrite(b: int, data: Block)
      requires 0 <= b < |disk|
      modifies this`cache, this`disk, this`trace
      ensures disk == Put(old(disk), Write(b, data)) && cache == old(cache)[b := data]
      ensures trace == old(trace) + [Write(b, data)]
    {
      disk := disk[b := data];
      cache := cache[b := data];
      trace := trace + [Write(b, data)];
    }

    /** One round of write_log: pinned block number `tail` goes to log slot `tail`. */
    method CopyToLog(tail: nat)
      requires GoodBlocks(lay, |disk|, lh) && Coherent(cache, disk, lh) && tail < |lh|
      modifies this`cache, this`disk, this`trace
      ensures var w := Write(lay.start + 1 + tail, View(old(cache), old(disk), lh[tail]));
              disk == Put(old(disk), w) && trace == old(trace) + [w]
      ensures Coherent(cache, disk, lh) && SameView(lay, cache, disk, old(cache), old(disk))
    {
      LogCopyKeeps(lay, cache, disk, lh, tail);
      var data := Bread(lh[tail]);
      Bwrite(lay.start + 1 + tail, data);
    }

    /** Copy the pinned buffers into the log area. */
    method WriteLog()
      requires Valid()
      modifies this`cache, this`disk, this`trace
      ensures var ws := LogWrites(lay, Pinned(old(cache), old(disk), lh));
              disk == Apply(old(disk), ws) && trace == old(trace) + ws
      ensures Coherent(cache, disk, lh) && SameView(lay, cache, disk, old(cache), old(disk))
    {
      hide Apply, Coherent, SameView, LogWrites;
      ghost var ws := LogWrites(lay, Pinned(cache, disk, lh));
      SameViewItself(lay, cache, disk);
      ApplyNone(disk, ws);
      var tail := 0;
      while tail < |lh|
        invariant 0 <= tail <= |lh|
        invariant Coherent(cache, disk, lh) && SameView(lay, cache, disk, old(cache), old(disk))
        invariant disk == Apply(old(disk), ws[..tail]) && trace == old(trace) + ws[..tail]
      {
        ghost var c, d := cache, disk;
        Extend(old(disk), old(trace), ws, tail);
        NextLogWrite(lay, old(cache), old(disk), lh, tail, c, d);
        CopyToLog(tail);
        SameViewThen(lay, cache, disk, c, d, old(cache), old(disk));
        tail := tail + 1;
      }
      assert ws[..|lh|] == ws;
    }

    /** Write the in-memory header over the on-disk one. */
    method WriteHead()
      requires Coherent(cache, disk, lh) && |lh| <= LOGSIZE && lay.start < |disk| && lay.start !in lh
      modifies this`cache, this`disk, this`trace
      ensures var w := Write(lay.start, PutHeader(old(disk)[lay.start], lh));
              disk == Put(old(disk), w) && trace == old(trace) + [w]
      ensures cache == old(cache)[lay.start := disk[lay.start]]
    {
      var h := Bread(lay.start);
      assert h == old(disk)[lay.start];
      var r := h[0 := |lh|];
      var i := 0;
      while i < |lh|
        invariant 0 <= i <= |lh|
        invariant |r| == WORDS
        invariant forall k :: 0 <= k < WORDS ==> r[k] == if k == 0 then |lh| else if k <= i then lh[k - 1] else h[k]
      {
        r := r[1 + i := lh[i]];
        i := i + 1;
      }
      assert r == PutHeader(h, lh);
      Bwrite(lay.start, r);
    }

    /** Load the on-disk header; runs at boot, when the valid buffers are those of blocks that were only read. */
    method ReadHead()
      requires WellFormed(lay, disk) && Coherent(cache, disk, [])
      modifies this`cache, this`lh
      ensures lh == HeaderBlocks(disk[lay.start])
      ensures cache == old(cache)[lay.start := disk[lay.start]]
    {
      var h := Bread(lay.start);
      lh := [];
      var i := 0;
      while i < h[0]
        invariant 0 <= i <= h[0] && |lh| == i
        invariant lh == h[1..1 + i] && cache == old(cache)[lay.start := h]
      {
        lh := lh + [h[1 + i]];
        i := i + 1;
      }
    }

    /** One round of install_trans: log slot `tail` goes to its home block. */
    method CopyHome(tail: nat)
      requires GoodBlocks(lay, |disk|, lh) && tail < |lh| && Coherent(cache, disk, lh[tail..])
      modifies this`cache, this`disk, this`trace
      ensures var w := Write(lh[tail], old(disk)[lay.start + 1 + tail]);
              disk == Put(old(disk), w) && trace == old(trace) + [w]
      ensures Coherent(cache, disk, lh[tail + 1..])
    {
      ghost var cache0 := cache;
      var data := Bread(lay.start + tail + 1);
      var dst := Bread(lh[tail]);
      Bwrite(lh[tail], data);
      assert cache == cache0[lay.start + tail + 1 := data][lh[tail] := data];
      InstallCopyKeeps(lay, cache0, old(disk), lh, tail, data);
    }

    /** Copy the logged blocks home. */
    method InstallTrans()
      requires Valid()
      modifies this`cache, this`disk, this`trace
      ensures var ws := InstallWrites(lh, LoggedData(lay, old(disk), |lh|));
              disk == Apply(old(disk), ws) && trace == old(trace) + ws
      ensures Coherent(cache, disk, [])
    {
      ghost var ws := InstallWrites(lh, LoggedData(lay, disk, |lh|));
      var tail := 0;
      while tail < |lh|
        invariant 0 <= tail <= |lh| && |disk| == |old(disk)|
        invariant Coherent(cache, disk, lh[tail..])
        invariant disk == Apply(old(disk), ws[..tail]) && trace == old(trace) + ws[..tail]
      {
        InstallReads(lay, old(disk), lh, tail);
        Extend(old(disk), old(trace), ws, tail);
        CopyHome(tail);
        tail := tail + 1;
      }
      assert ws[..|lh|] == ws;
      assert lh[|lh|..] == [];
    }

    /** The first half of commit(): log blocks, then the header, up to the commit point. */
    method LogAndMark()
      requires Valid() && Quiet(lay, disk)
      modifies this`cache, this`disk, this`trace
      ensures var datas := Pinned(old(cache), old(disk), lh);
              && disk == AtCommitPoint(lay, old(disk), lh, datas)
              && trace == old(trace) + LogWrites(lay, datas) + [Write(lay.start, PutHeader(old(disk)[lay.start], lh))]
      ensures Valid() && HeaderBlocks(disk[lay.start]) == lh
    {
      ghost var d0, datas := disk, Pinned(cache, disk, lh);
      WriteLog();
      ghost var d1, cache1 := disk, cache;
      assert d1[lay.start] == d0[lay.start] by {
        LogWritesEffect(lay, d0, datas, |lh|);
        assert LogWrites(lay, datas)[..|lh|] == LogWrites(lay, datas);
      }
      WriteHead();
      assert WellFormed(lay, disk) && HeaderBlocks(disk[lay.start]) == lh by {
        HeaderRoundTrip(d0[lay.start], lh);
      }
    }

    /** The sequence commit() and recover_from_log() share: install the logged blocks, then empty the header. */
    method InstallAndClear()
      requires Valid() && HeaderBlocks(disk[lay.start]) == lh
      modifies this`cache, this`disk, this`trace, this`lh
      ensures var ws := RecoveryWrites(lay, old(disk));
              disk == Apply(old(disk), ws) && trace == old(trace) + ws
      ensures lh == [] && Valid() && Quiet(lay, disk)
    {
      hide Apply, InstallWrites, LoggedData;
      ghost var d0 := disk;
      ghost var ws := InstallWrites(lh, LoggedData(lay, disk, |lh|));
      InstallTrans();
      assert disk[lay.start] == d0[lay.start] by {
        assert ws[..|lh|] == ws;
        InstallFrame(lay, d0, lh, LoggedData(lay, d0, |lh|), |lh|);
      }
      lh := [];
      WriteHead();
      ApplySnoc(d0, ws, Write(lay.start, PutHeader(d0[lay.start], [])));
      HeaderRoundTrip(d0[lay.start], []);
    }

    /** commit(): nothing for an empty transaction, else log, header, home blocks, empty header. */
    method Commit()
      requires Valid() && Quiet(lay, disk)
      modifies this`cache, this`disk, this`trace, this`lh
      ensures var ws := CommitWrites(lay, old(disk)[lay.start], old(lh), Pinned(old(cache), old(disk), old(lh)));
              disk == Apply(old(disk), ws) && trace == old(trace) + ws
      ensures lh == [] && Valid() && Quiet(lay, disk)
      ensures SameView(lay, cache, disk, old(cache), old(disk))
      ensures forall b :: 0 <= b < |disk| && !InLog(lay, b) ==> b < |old(disk)| && disk[b] == LastData(old(cache), old(disk), b)
    {
      ghost var d0, cache0, blocks, datas := disk, cache, lh, Pinned(cache, disk, lh);
      if |lh| > 0 {
        LogAndMark();
        InstallAndClear();
        CommitTrace(lay, d0, blocks, datas, old(trace));
      }
      CommitInvisible(lay, cache0, d0, blocks, cache);
      InPlace(lay, cache, disk, cache0, d0);
    }

    /** log_write()'s guard, tested before the lock is taken. */
    method LogCheck() returns (panicked: bool)
      ensures panicked <==> |lh| >= 30 || |lh| >= lay.size - 1 || outstanding < 1
    {
      panicked := |lh| >= LOGSIZE || |lh| >= lay.size - 1 || outstanding < 1;
    }

    /**
     log_write() under the lock: list the block (once) and pin the buffer with its new contents. Other operations
     may have listed blocks since the guard was tested, so the transaction can come to exceed the log area; the
     log stays valid if and only if it does not, and LogRuns says what becomes of it otherwise. The header's array has
     room for a block not listed yet, which AdmissionSafety guarantees.
     */
    method LogAppend(b: int, data: Block)
      requires Listing() && 0 <= b < |disk| && !InLog(lay, b) && (b in lh || |lh| < LOGSIZE)
      modifies this`cache, this`lh
      ensures lh == (if b in old(lh) then old(lh) else old(lh) + [b]) && cache == old(cache)[b := data]
      ensures Listing() && (Valid() <==> |lh| < lay.size)
    {
      var i := 0;
      while i < |lh| && lh[i] != b
        invariant 0 <= i <= |lh| && b !in lh[..i]
      {
        i := i + 1;
      }
      if i == |lh| {
        assert lh[..i] == lh;
        lh := lh + [b];
      } else {
        lh := lh[i := b];
      }
      cache := cache[b := data];
    }

    /** One turn of begin_op's loop: take a reservation, or go to sleep. */
    method BeginOp() returns (admitted: bool)
      modifies this`outstanding
      ensures admitted <==> !committing && |lh| + 10 * (old(outstanding) + 1) <= 30
      ensures outstanding == old(outstanding) + if admitted then 1 else 0
    {
      if committing {
        admitted := false;
      } else if |lh| + (outstanding + 1) * MAXOPBLOCKS > LOGSIZE {
        admitted := false;
      } else {
        outstanding := outstanding + 1;
        admitted := true;
      }
    }

    /** end_op's critical section: the last operation out starts the commit, any other wakes the sleepers. */
    method EndOp() returns (r: EndOutcome)
      modifies this`outstanding, this`committing
      ensures outstanding == old(outstanding) - 1
      ensures r == CommittingPanic <==> old(committing)
      ensures r == StartCommit <==> !old(committing) && outstanding == 0
      ensures committing == (old(committing) || outstanding == 0)
    {
      outstanding := outstanding - 1;
      if committing {
        r := CommittingPanic;
      } else if outstanding == 0 {
        r := StartCommit;
        committing := true;
      } else {
        r := WakeSleepers;
      }
    }

    /** end_op's commit and second critical section. */
    method CommitAndWake()
      requires Valid() && Quiet(lay, disk) && committing
      modifies this`cache, this`disk, this`trace, this`lh, this`committing
      ensures var ws := CommitWrites(lay, old(disk)[lay.start], old(lh), Pinned(old(cache), old(disk), old(lh)));
              disk == Apply(old(disk), ws) && trace == old(trace) + ws
      ensures lh == [] && Valid() && Quiet(lay, disk) && !committing
      ensures SameView(lay, cache, disk, old(cache), old(disk))
      ensures forall b :: 0 <= b < |disk| && !InLog(lay, b) ==> b < |old(disk)| && disk[b] == LastData(old(cache), old(disk), b)
    {
      Commit();
      committing := false;
    }

    /** recover_from_log(): replay whatever transaction the header names. Runs at boot, after the super block was read. */
    method RecoverFromLog()
      requires WellFormed(lay, disk) && Coherent(cache, disk, [])
      modifies this`cache, this`disk, this`trace, this`lh
      ensures var ws := RecoveryWrites(lay, old(disk));
              disk == Apply(old(disk), ws) && trace == old(trace) + ws
      ensures lh == [] && Valid() && Quiet(lay, disk)
      ensures forall b :: 0 <= b < |disk| && !InLog(lay, b) ==> Replayed(lay, old(disk), disk, b, old(disk)[lay.start])
    {
      ReadHead();
      InstallAndClear();
      RecoveredHome(lay, old(disk));
    }
  }

  /** The buffer of the block if it has one, else the block. */
  function LastData(cache: Cache, disk: Disk, b: nat): Block
    requires b < |disk|
  {
    if b in cache then cache[b] else disk[b]
  }

  /** With nothing pinned the disk itself holds what bread yields. */
  lemma InPlace(lay: Layout, cache: Cache, disk: Disk, cache0: Cache, disk0: Disk)
    requires SameView(lay, cache, disk, cache0, disk0) && Coherent(cache, disk, [])
    ensures |disk| == |disk0| && forall b :: 0 <= b < |disk| && !InLog(lay, b) ==> disk[b] == LastData(cache0, disk0, b)
  {
    forall b | 0 <= b < |disk| && !InLog(lay, b)
      ensures disk[b] == LastData(cache0, disk0, b)
    {
      assert View(cache, disk, b) == View(cache0, disk0, b);
    }
  }

  /** Block `b` is the log's copy if the header `h` names it in its word `w`, the old block if it does not. */
  ghost predicate Replayed(lay: Layout, d: Disk, r: Disk, b: nat, h: Block) {
    && b < |r| == |d| && 0 <= h[0] < WORDS && lay.start + h[0] < |d|
    && (forall w :: 1 <= w <= h[0] && h[w] == b ==> r[b] == d[lay.start + w])
    && ((forall w :: 1 <= w <= h[0] ==> h[w] != b) ==> r[b] == d[b])
  }

  lemma RecoveredHome(lay: Layout, d: Disk)
    requires WellFormed(lay, d)
    ensures var r := Apply(d, RecoveryWrites(lay, d));
            forall b :: 0 <= b < |d| && !InLog(lay, b) ==> Replayed(lay, d, r, b, d[lay.start])
  {
    hide Replayed;
    forall b | 0 <= b < |d| && !InLog(lay, b)
      ensures Replayed(lay, d, Apply(d, RecoveryWrites(lay, d)), b, d[lay.start])
    {
      RecoveredBlock(lay, d, b);
    }
  }

  /** Home blocks do not notice that the header is emptied. */
  lemma RecoveryInstalls(lay: Layout, d: Disk, b: nat)
    requires WellFormed(lay, d) && b < |d| && !InLog(lay, b)
    ensures var blocks := HeaderBlocks(d[lay.start]);
            Apply(d, RecoveryWrites(lay, d))[b] == Installed(d, blocks, LoggedData(lay, d, |blocks|))[b]
  {
    hide Apply, InstallWrites;
    var h, blocks := d[lay.start], HeaderBlocks(d[lay.start]);
    ApplySnoc(d, InstallWrites(blocks, LoggedData(lay, d, |blocks|)), Write(lay.start, PutHeader(h, [])));
  }

  /** Word `w` of the header and log block `w` belong together. */
  lemma HeaderWord(lay: Layout, d: Disk, w: nat)
    requires WellFormed(lay, d) && 1 <= w <= d[lay.start][0]
    ensures var blocks := HeaderBlocks(d[lay.start]);
            && blocks[w - 1] == d[lay.start][w] && lay.start + w < |d|
            && LoggedData(lay, d, |blocks|)[w - 1] == d[lay.start + w]
  {
  }

  lemma RecoveredBlock(lay: Layout, d: Disk, b: nat)
    requires WellFormed(lay, d) && b < |d| && !InLog(lay, b)
    ensures Replayed(lay, d, Apply(d, RecoveryWrites(lay, d)), b, d[lay.start])
  {
    hide Apply, InstallWrites, RecoveryWrites, Installed, LoggedData, HomeBlocks;
    var h, blocks := d[lay.start], HeaderBlocks(d[lay.start]);
    RecoveryInstalls(lay, d, b);
    InstallEffect(lay, d, blocks, LoggedData(lay, d, |blocks|));
    var r := Apply(d, RecoveryWrites(lay, d));
    forall w | 1 <= w <= h[0] && h[w] == b
      ensures r[b] == d[lay.start + w]
    {
      HeaderWord(lay, d, w);
    }
    if b in blocks {
      var i :| 0 <= i < |blocks| && blocks[i] == b;
      HeaderWord(lay, d, i + 1);
    }
  }

  lemma Regroup<T>(a: seq<T>, b: seq<T>, c: seq<T>, d: seq<T>)
    ensures a + (b + c + d) == a + b + c + d
  {
  }

  /** Committing changes the disk, never what bread yields for a home block. */
  lemma CommitInvisible(lay: Layout, cache: Cache, d: Disk, blocks: seq<int>, cache': Cache)
    requires Quiet(lay, d) && GoodBlocks(lay, |d|, blocks) && Coherent(cache, d, blocks)
    requires Coherent(cache', Apply(d, CommitWrites(lay, d[lay.start], blocks, Pinned(cache, d, blocks))), [])
    ensures SameView(lay, cache', Apply(d, CommitWrites(lay, d[lay.start], blocks, Pinned(cache, d, blocks))), cache, d)
  {
    var datas := Pinned(cache, d, blocks);
    var r := Apply(d, CommitWrites(lay, d[lay.start], blocks, datas));
    CommitEffect(lay, d, blocks, datas);
    forall b | 0 <= b < |d| && !InLog(lay, b)
      ensures View(cache', r, b) == View(cache, d, b)
    {
      assert View(cache', r, b) == r[b];
      if b in blocks {
        var i :| 0 <= i < |blocks| && blocks[i] == b;
        assert datas[i] == View(cache, d, b);
      }
    }
  }

  lemma CommitEffect(lay: Layout, d: Disk, blocks: seq<int>, datas: seq<Block>)
    requires Quiet(lay, d) && GoodBlocks(lay, |d|, blocks) && |blocks| == |datas|
    ensures var r := Apply(d, CommitWrites(lay, d[lay.start], blocks, datas));
            && (forall b :: 0 <= b < |d| && !InLog(lay, b) && b !in blocks ==> r[b] == d[b])
            && (forall i :: 0 <= i < |blocks| ==> r[blocks[i]] == datas[i])
  {
    if blocks != [] {
      var c := AtCommitPoint(lay, d, blocks, datas);
      CommitEnds(lay, d, blocks, datas);
      CommitPoint(lay, d, d, blocks, datas);
      RecoveryCompletes(lay, c, Installed(d, blocks, datas));
      InstallEffect(lay, d, blocks, datas);
    }
  }

  lemma InstallEffect(lay: Layout, d: Disk, blocks: seq<int>, datas: seq<Block>)
    requires GoodBlocks(lay, |d|, blocks) && |blocks| == |datas|
    ensures var r := Installed(d, blocks, datas);
            && (forall b :: 0 <= b < |d| && b !in blocks ==> r[b] == d[b])
            && (forall i :: 0 <= i < |blocks| ==> r[blocks[i]] == datas[i])
  {
    InstallFrame(lay, d, blocks, datas, |blocks|);
    assert InstallWrites(blocks, datas)[..|blocks|] == InstallWrites(blocks, datas);
    forall i | 0 <= i < |blocks| ensures Installed(d, blocks, datas)[blocks[i]] == datas[i] {
      InstallHit(lay, d, blocks, datas, i);
    }
  }

  lemma CommitTrace(lay: Layout, d: Disk, blocks: seq<int>, datas: seq<Block>, trace: seq<Write>)
    requires Quiet(lay, d)
    requires GoodBlocks(lay, |d|, blocks) && |blocks| == |datas| && blocks != []
    ensures var c := AtCommitPoint(lay, d, blocks, datas);
            var ws := CommitWrites(lay, d[lay.start], blocks, datas);
            && WellFormed(lay, c)
            && Apply(d, ws) == Apply(c, RecoveryWrites(lay, c))
            && trace + ws == trace + LogWrites(lay, datas) + [Write(lay.start, PutHeader(d[lay.start], blocks))]
                             + RecoveryWrites(lay, c)
  {
    var c := AtCommitPoint(lay, d, blocks, datas);
    CommitIsLogThenRecovery(lay, d, blocks, datas);
    CommitEnds(lay, d, blocks, datas);
    Regroup(trace, LogWrites(lay, datas), [Write(lay.start, PutHeader(d[lay.start], blocks))], RecoveryWrites(lay, c));
  }

  lemma InstallReads(lay: Layout, d: Disk, lh: seq<int>, k: nat)
    requires GoodBlocks(lay, |d|, lh) && k < |lh|
    ensures var ws := InstallWrites(lh, LoggedData(lay, d, |lh|));
            ws[k] == Write(lh[k], Apply(d, ws[..k])[lay.start + 1 + k])
  {
    hide Apply;
    InstallFrame(lay, d, lh, LoggedData(lay, d, |lh|), k);
  }

  lemma Extend(d: Disk, trace: seq<Write>, ws: seq<Write>, k: nat)
    requires k < |ws|
    ensures Apply(d, ws[..k + 1]) == Put(Apply(d, ws[..k]), ws[k])
    ensures trace + ws[..k + 1] == (trace + ws[..k]) + [ws[k]]
  {
    assert ws[..k + 1] == ws[..k] + [ws[k]];
    ApplySnoc(d, ws[..k], ws[k]);
  }

  lemma SameViewItself(lay: Layout, cache: Cache, disk: Disk)
    ensures SameView(lay, cache, disk, cache, disk)
  {
  }

  lemma SameViewThen(lay: Layout, c2: Cache, d2: Disk, c1: Cache, d1: Disk, c0: Cache, d0: Disk)
    requires SameView(lay, c2, d2, c1, d1) && SameView(lay, c1, d1, c0, d0)
    ensures SameView(lay, c2, d2, c0, d0)
  {
  }

  lemma ApplyNone(d: Disk, ws: seq<Write>)
    ensures Apply(d, ws[..0]) == d && ws[..0] == []
  {
  }

  /** The next write of write_log: the view of the listed block has not changed since the commit began. */
  lemma NextLogWrite(lay: Layout, c0: Cache, d0: Disk, lh: seq<int>, k: nat, c: Cache, d: Disk)
    requires GoodBlocks(lay, |d0|, lh) && k < |lh| && SameView(lay, c, d, c0, d0)
    ensures LogWrites(lay, Pinned(c0, d0, lh))[k] == Write(lay.start + 1 + k, View(c, d, lh[k]))
  {
  }

  /** Copying pinned block `lh[i]` to log slot `i` changes no home block's view. */
  lemma LogCopyKeeps(lay: Layout, cache: Cache, disk: Disk, lh: seq<int>, i: nat)
    requires GoodBlocks(lay, |disk|, lh) && i < |lh| && Coherent(cache, disk, lh)
    ensures var data := View(cache, disk, lh[i]);
            var slot := lay.start + 1 + i;
            var cache' := cache[lh[i] := data][slot := data];
            && Coherent(cache', disk[slot := data], lh)
            && SameView(lay, cache', disk[slot := data], cache, disk)
  {
  }

  lemma InstallCopyKeeps(lay: Layout, cache: Cache, disk: Disk, lh: seq<int>, i: nat, data: Block)
    requires GoodBlocks(lay, |disk|, lh) && i < |lh| && Coherent(cache, disk, lh[i..])
    requires data == disk[lay.start + i + 1]
    ensures Coherent(cache[lay.start + i + 1 := data][lh[i] := data], disk[lh[i] := data], lh[i + 1..])
  {
    forall b | b in cache && b !in lh[i + 1..] && b != lh[i]
      ensures b !in lh[i..]
    {
      assert lh[i..] == [lh[i]] + lh[i + 1..];
    }
  }
}
