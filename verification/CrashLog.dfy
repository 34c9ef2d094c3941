/**
 The redo log of log.c: commit and recovery as sequences of atomic block writes,
 and what a crash between any two of those writes leaves behind.

 A disk is a sequence of blocks. `Represents(lay, d, h)` is the abstraction relation:
 disk `d` stands for the home contents `h` once recovery has run. Every prefix of
 recovery's writes keeps it, and commit's header write is the only write that moves it
 from the old contents to the new ones.
 */
module CrashLog {

  const LOGSIZE := 30
  /** Words in a block: BSIZE / sizeof(int). */
  const WORDS := 128

  type Block = b: seq<int> | |b| == WORDS witness seq(WORDS, _ => 0)
  type Disk = seq<Block>

  /** Log area: header block at `start`, then `size - 1` data blocks (super block fields logstart, nlog). */
  datatype Layout = Layout(start: nat, size: nat)

  datatype Write = Write(bno: int, data: Block)

  predicate InLog(lay: Layout, b: int) {
    lay.start <= b < lay.start + lay.size
  }

  // ---------------------------------------------------------------- disk writes

  /** One atomic block write; the driver refuses block numbers beyond the disk. */
  function Put(d: Disk, w: Write): (r: Disk)
    ensures |r| == |d|
  {
    if 0 <= w.bno < |d| then d[w.bno := w.data] else d
  }

  function Apply(d: Disk, ws: seq<Write>): (r: Disk)
    ensures |r| == |d|
  {
    if ws == [] then d else Put(Apply(d, ws[..|ws| - 1]), ws[|ws| - 1])
  }

  predicate DistinctTargets(ws: seq<Write>) {
    forall i, j :: 0 <= i < j < |ws| ==> ws[i].bno != ws[j].bno
  }

  lemma ApplySnoc(d: Disk, ws: seq<Write>, w: Write)
    ensures Apply(d, ws + [w]) == Put(Apply(d, ws), w)
  {
    assert (ws + [w])[..|ws|] == ws;
  }

  lemma {:induction false} ApplyConcat(d: Disk, a: seq<Write>, b: seq<Write>)
    ensures Apply(d, a + b) == Apply(Apply(d, a), b)
    decreases |b|
  {
    if b == [] {
      assert a + b == a;
    } else {
      var b' := b[..|b| - 1];
      ApplyConcat(d, a, b');
      assert a + b == (a + b') + [b[|b| - 1]];
      ApplySnoc(d, a + b', b[|b| - 1]);
    }
  }

  lemma {:induction false} ApplyMiss(d: Disk, ws: seq<Write>, b: int)
    requires 0 <= b < |d|
    requires forall i :: 0 <= i < |ws| ==> ws[i].bno != b
    ensures Apply(d, ws)[b] == d[b]
    decreases |ws|
  {
    if ws != [] {
      ApplyMiss(d, ws[..|ws| - 1], b);
    }
  }

  lemma {:induction false} ApplyHit(d: Disk, ws: seq<Write>, i: int)
    requires DistinctTargets(ws)
    requires 0 <= i < |ws| && 0 <= ws[i].bno < |d|
    ensures Apply(d, ws)[ws[i].bno] == ws[i].data
    decreases |ws|
  {
    if i < |ws| - 1 {
      ApplyHit(d, ws[..|ws| - 1], i);
    }
  }

  // ---------------------------------------------------------------- the header block

  /** Header words: the count, then the home block numbers; the rest of the block is left alone. */
  function PutHeader(h: Block, blocks: seq<int>): (r: Block)
    requires |blocks| <= LOGSIZE
  {
    [|blocks|] + blocks + h[1 + |blocks|..]
  }

  predicate GoodCount(h: Block) {
    0 <= h[0] <= LOGSIZE
  }

  function HeaderBlocks(h: Block): (r: seq<int>)
    requires GoodCount(h)
    ensures |r| == h[0]
  {
    h[1..1 + h[0]]
  }

  lemma HeaderRoundTrip(h: Block, blocks: seq<int>)
    requires |blocks| <= LOGSIZE
    ensures GoodCount(PutHeader(h, blocks))
    ensures HeaderBlocks(PutHeader(h, blocks)) == blocks
    ensures PutHeader(h, blocks)[0] == |blocks|
    ensures forall i :: 0 < i < WORDS ==> PutHeader(h, blocks)[i] == if i <= |blocks| then blocks[i - 1] else h[i]
  {
    var r := PutHeader(h, blocks);
    assert r[0] == |blocks|;
    assert HeaderBlocks(r) == r[1..1 + |blocks|];
    assert r[1..1 + |blocks|] == blocks;
  }

  /** What log_write lists: distinct home blocks, within the header's array. */
  predicate HomeBlocks(lay: Layout, len: nat, blocks: seq<int>) {
    && |blocks| <= LOGSIZE
    && lay.start + lay.size <= len
    && (forall i :: 0 <= i < |blocks| ==> 0 <= blocks[i] < len && !InLog(lay, blocks[i]))
    && (forall i, j :: 0 <= i < j < |blocks| ==> blocks[i] != blocks[j])
  }

  /**
   A transaction that also fits the log area, whose first block is the header. LogRuns shows that every commit that
   writes anything is of this kind.
   */
  predicate GoodBlocks(lay: Layout, len: nat, blocks: seq<int>) {
    HomeBlocks(lay, len, blocks) && |blocks| < lay.size
  }

  predicate WellFormed(lay: Layout, d: Disk) {
    && lay.start + lay.size <= |d|
    && 0 < lay.size
    && GoodCount(d[lay.start])
    && GoodBlocks(lay, |d|, HeaderBlocks(d[lay.start]))
  }

  // ---------------------------------------------------------------- commit and recovery as write sequences

  function LogWrites(lay: Layout, datas: seq<Block>): (ws: seq<Write>)
    ensures |ws| == |datas|
  {
    seq(|datas|, i requires 0 <= i < |datas| => Write(lay.start + 1 + i, datas[i]))
  }

  function InstallWrites(blocks: seq<int>, datas: seq<Block>): (ws: seq<Write>)
    requires |blocks| == |datas|
    ensures |ws| == |blocks|
  {
    seq(|blocks|, i requires 0 <= i < |blocks| => Write(blocks[i], datas[i]))
  }

  /** commit(): log blocks, header, home blocks, empty header; nothing at all for an empty transaction. */
  function CommitWrites(lay: Layout, h: Block, blocks: seq<int>, datas: seq<Block>): (ws: seq<Write>)
    requires |blocks| == |datas| <= LOGSIZE
    ensures |ws| == if blocks == [] then 0 else 2 * |blocks| + 2
  {
    if blocks == [] then [] else
    LogWrites(lay, datas) + [Write(lay.start, PutHeader(h, blocks))] +
    InstallWrites(blocks, datas) + [Write(lay.start, PutHeader(PutHeader(h, blocks), []))]
  }

  /** The data blocks of the log area that belong to the transaction the header names. */
  function LoggedData(lay: Layout, d: Disk, n: nat): (r: seq<Block>)
    requires lay.start + 1 + n <= |d|
    ensures |r| == n
  {
    d[lay.start + 1..lay.start + 1 + n]
  }

  /** recover_from_log(): home blocks named by the header, then the empty header. */
  function RecoveryWrites(lay: Layout, d: Disk): (ws: seq<Write>)
    requires WellFormed(lay, d)
    ensures |ws| == d[lay.start][0] + 1
  {
    var blocks := HeaderBlocks(d[lay.start]);
    InstallWrites(blocks, LoggedData(lay, d, |blocks|)) + [Write(lay.start, PutHeader(d[lay.start], []))]
  }

  // ---------------------------------------------------------------- the abstraction relation

  /** Disk `d` stands for home contents `h`: logged blocks are read from the log, all others in place. */
  predicate Represents(lay: Layout, d: Disk, h: Disk) {
    && WellFormed(lay, d)
    && |h| == |d|
    && (forall b :: 0 <= b < |d| && !InLog(lay, b) && b !in HeaderBlocks(d[lay.start]) ==> d[b] == h[b])
    && (forall i :: 0 <= i < d[lay.start][0] ==> d[lay.start + 1 + i] == h[HeaderBlocks(d[lay.start])[i]])
  }

  predicate SameHome(lay: Layout, d: Disk, h: Disk) {
    |d| == |h| && forall b :: 0 <= b < |d| && !InLog(lay, b) ==> d[b] == h[b]
  }

  /** The log is empty: what initlog and a finished commit leave behind. */
  predicate Quiet(lay: Layout, d: Disk) {
    WellFormed(lay, d) && d[lay.start][0] == 0
  }

  lemma QuietRepresents(lay: Layout, d: Disk, h: Disk)
    requires Quiet(lay, d)
    ensures Represents(lay, d, h) <==> SameHome(lay, d, h)
  {
    assert HeaderBlocks(d[lay.start]) == [];
  }

  /** Installing the logged blocks touches neither the header nor the log area. */
  lemma InstallFrame(lay: Layout, d: Disk, blocks: seq<int>, datas: seq<Block>, k: nat)
    requires GoodBlocks(lay, |d|, blocks) && |blocks| == |datas| && k <= |blocks|
    ensures var r := Apply(d, InstallWrites(blocks, datas)[..k]);
            forall b :: 0 <= b < |d| && (InLog(lay, b) || b !in blocks) ==> r[b] == d[b]
  {
    var ws := InstallWrites(blocks, datas)[..k];
    forall b | 0 <= b < |d| && (InLog(lay, b) || b !in blocks)
      ensures Apply(d, ws)[b] == d[b]
    {
      assert forall i :: 0 <= i < |ws| ==> ws[i].bno == blocks[i];
      ApplyMiss(d, ws, b);
    }
  }

  lemma InstallHit(lay: Layout, d: Disk, blocks: seq<int>, datas: seq<Block>, i: nat)
    requires GoodBlocks(lay, |d|, blocks) && |blocks| == |datas| && i < |blocks|
    ensures Apply(d, InstallWrites(blocks, datas))[blocks[i]] == datas[i]
  {
    var ws := InstallWrites(blocks, datas);
    assert forall j :: 0 <= j < |ws| ==> ws[j].bno == blocks[j];
    ApplyHit(d, ws, i);
  }

  /** With the header naming the transaction and its data in the log, the disk stands for the new contents. */
  lemma HeaderSwitches(lay: Layout, d: Disk, h: Disk, blocks: seq<int>, datas: seq<Block>)
    requires GoodBlocks(lay, |d|, blocks) && |blocks| == |datas| && |h| == |d|
    requires WellFormed(lay, d)
    requires HeaderBlocks(d[lay.start]) == blocks
    requires forall b :: 0 <= b < |d| && !InLog(lay, b) && b !in blocks ==> d[b] == h[b]
    requires forall i :: 0 <= i < |blocks| ==> d[lay.start + 1 + i] == datas[i]
    ensures Represents(lay, d, Apply(h, InstallWrites(blocks, datas)))
  {
    var ws := InstallWrites(blocks, datas);
    assert ws[..|blocks|] == ws;
    InstallFrame(lay, h, blocks, datas, |blocks|);
    forall i | 0 <= i < |blocks|
      ensures d[lay.start + 1 + i] == Apply(h, ws)[blocks[i]]
    {
      InstallHit(lay, h, blocks, datas, i);
    }
  }

  // ---------------------------------------------------------------- recovery

  /** Any prefix of the home-block writes of recovery keeps what the disk stands for. */
  lemma InstallKeeps(lay: Layout, d: Disk, h: Disk, k: nat)
    requires Represents(lay, d, h) && k <= d[lay.start][0]
    ensures Represents(lay, Apply(d, RecoveryWrites(lay, d)[..k]), h)
  {
    var blocks := HeaderBlocks(d[lay.start]);
    var datas := LoggedData(lay, d, |blocks|);
    assert RecoveryWrites(lay, d)[..k] == InstallWrites(blocks, datas)[..k];
    InstallFrame(lay, d, blocks, datas, k);
  }

  /** A completed recovery leaves an empty log and exactly the contents the disk stood for. */
  lemma RecoveryCompletes(lay: Layout, d: Disk, h: Disk)
    requires Represents(lay, d, h)
    ensures var r := Apply(d, RecoveryWrites(lay, d));
            Quiet(lay, r) && SameHome(lay, r, h) && Represents(lay, r, h)
  {
    hide Apply, InstallWrites, PutHeader;
    var blocks := HeaderBlocks(d[lay.start]);
    var n := |blocks|;
    var datas := LoggedData(lay, d, n);
    var ws := InstallWrites(blocks, datas);
    var hd := PutHeader(d[lay.start], []);
    ApplySnoc(d, ws, Write(lay.start, hd));
    var m := Apply(d, ws);
    var r := Apply(d, RecoveryWrites(lay, d));
    assert r == m[lay.start := hd];
    HeaderRoundTrip(d[lay.start], []);
    assert ws[..n] == ws;
    InstallFrame(lay, d, blocks, datas, n);
    forall b | 0 <= b < |d| && !InLog(lay, b)
      ensures r[b] == h[b]
    {
      if b in blocks {
        var i :| 0 <= i < n && blocks[i] == b;
        InstallHit(lay, d, blocks, datas, i);
      }
    }
    QuietRepresents(lay, r, h);
  }

  /** Crash anywhere inside recovery: the disk still stands for the same contents. */
  lemma RecoveryCut(lay: Layout, d: Disk, h: Disk, k: nat)
    requires Represents(lay, d, h) && k <= |RecoveryWrites(lay, d)|
    ensures Represents(lay, Apply(d, RecoveryWrites(lay, d)[..k]), h)
    ensures k == |RecoveryWrites(lay, d)| ==> Quiet(lay, Apply(d, RecoveryWrites(lay, d)[..k]))
  {
    if k <= d[lay.start][0] {
      InstallKeeps(lay, d, h, k);
    } else {
      assert RecoveryWrites(lay, d)[..k] == RecoveryWrites(lay, d);
      RecoveryCompletes(lay, d, h);
    }
  }

  // ---------------------------------------------------------------- commit

  /** The contents a transaction leads to. */
  function Installed(h: Disk, blocks: seq<int>, datas: seq<Block>): (r: Disk)
    requires |blocks| == |datas|
    ensures |r| == |h|
  {
    Apply(h, InstallWrites(blocks, datas))
  }

  /** The disk right after commit's header write, the commit point. */
  function AtCommitPoint(lay: Layout, d: Disk, blocks: seq<int>, datas: seq<Block>): (r: Disk)
    requires |blocks| == |datas| <= LOGSIZE && lay.start < |d|
    ensures |r| == |d|
  {
    Put(Apply(d, LogWrites(lay, datas)), Write(lay.start, PutHeader(d[lay.start], blocks)))
  }

  /** write_log stays inside the log area if and only if there are fewer blocks than the area has. */
  lemma LogWritesFitExactly(lay: Layout, datas: seq<Block>)
    ensures (forall i :: 0 <= i < |datas| ==> InLog(lay, LogWrites(lay, datas)[i].bno)) <==> |datas| < lay.size || datas == []
  {
    if datas != [] {
      assert LogWrites(lay, datas)[|datas| - 1].bno == lay.start + |datas|;
    }
  }

  lemma LogWritesEffect(lay: Layout, d: Disk, datas: seq<Block>, k: nat)
    requires lay.start + lay.size <= |d| && |datas| < lay.size && k <= |datas|
    ensures var r := Apply(d, LogWrites(lay, datas)[..k]);
            && r[lay.start] == d[lay.start]
            && (forall b :: 0 <= b < |d| && !InLog(lay, b) ==> r[b] == d[b])
            && (forall i :: 0 <= i < k ==> r[lay.start + 1 + i] == datas[i])
  {
    hide Apply;
    var ws := LogWrites(lay, datas)[..k];
    assert forall i :: 0 <= i < |ws| ==> ws[i].bno == lay.start + 1 + i;
    ApplyMiss(d, ws, lay.start);
    forall b | 0 <= b < |d| && !InLog(lay, b) ensures Apply(d, ws)[b] == d[b] {
      ApplyMiss(d, ws, b);
    }
    forall i | 0 <= i < k ensures Apply(d, ws)[lay.start + 1 + i] == datas[i] {
      ApplyHit(d, ws, i);
    }
  }

  lemma CommitPoint(lay: Layout, d: Disk, h: Disk, blocks: seq<int>, datas: seq<Block>)
    requires Quiet(lay, d) && SameHome(lay, d, h)
    requires GoodBlocks(lay, |d|, blocks) && |blocks| == |datas|
    ensures var c := AtCommitPoint(lay, d, blocks, datas);
            && Represents(lay, c, Installed(h, blocks, datas))
            && c[lay.start] == PutHeader(d[lay.start], blocks)
            && HeaderBlocks(c[lay.start]) == blocks
            && LoggedData(lay, c, |blocks|) == datas
  {
    hide Apply, PutHeader, Represents;
    var n := |blocks|;
    var ws := LogWrites(lay, datas);
    assert ws[..n] == ws;
    LogWritesEffect(lay, d, datas, n);
    HeaderRoundTrip(d[lay.start], blocks);
    var c := AtCommitPoint(lay, d, blocks, datas);
    assert c == Apply(d, ws)[lay.start := PutHeader(d[lay.start], blocks)];
    HeaderSwitches(lay, c, h, blocks, datas);
  }

  /** After its header write, commit performs exactly the writes recovery would perform. */
  lemma CommitIsLogThenRecovery(lay: Layout, d: Disk, blocks: seq<int>, datas: seq<Block>)
    requires Quiet(lay, d)
    requires GoodBlocks(lay, |d|, blocks) && |blocks| == |datas| && blocks != []
    ensures var c := AtCommitPoint(lay, d, blocks, datas);
            && WellFormed(lay, c)
            && CommitWrites(lay, d[lay.start], blocks, datas) ==
               LogWrites(lay, datas) + [Write(lay.start, PutHeader(d[lay.start], blocks))] + RecoveryWrites(lay, c)
  {
    CommitPoint(lay, d, d, blocks, datas);
  }

  lemma BeforeCommitPoint(lay: Layout, d: Disk, h: Disk, blocks: seq<int>, datas: seq<Block>, k: nat)
    requires Quiet(lay, d) && SameHome(lay, d, h)
    requires GoodBlocks(lay, |d|, blocks) && |blocks| == |datas| && k <= |blocks|
    ensures Represents(lay, Apply(d, CommitWrites(lay, d[lay.start], blocks, datas)[..k]), h)
  {
    assert CommitWrites(lay, d[lay.start], blocks, datas)[..k] == LogWrites(lay, datas)[..k];
    LogWritesEffect(lay, d, datas, k);
    var r := Apply(d, LogWrites(lay, datas)[..k]);
    assert HeaderBlocks(r[lay.start]) == [];
    QuietRepresents(lay, r, h);
  }

  /** The disk after the header write and `j` further writes of commit. */
  lemma CommitSuffix(lay: Layout, d: Disk, blocks: seq<int>, datas: seq<Block>, j: nat)
    requires Quiet(lay, d)
    requires GoodBlocks(lay, |d|, blocks) && |blocks| == |datas| && blocks != []
    requires j <= |blocks| + 1
    ensures var c := AtCommitPoint(lay, d, blocks, datas);
            && WellFormed(lay, c) && |RecoveryWrites(lay, c)| == |blocks| + 1
            && Apply(d, CommitWrites(lay, d[lay.start], blocks, datas)[..|blocks| + 1 + j]) ==
               Apply(c, RecoveryWrites(lay, c)[..j])
  {
    var c := AtCommitPoint(lay, d, blocks, datas);
    var ws := LogWrites(lay, datas);
    var hw := Write(lay.start, PutHeader(d[lay.start], blocks));
    CommitIsLogThenRecovery(lay, d, blocks, datas);
    var rest := RecoveryWrites(lay, c);
    var all := CommitWrites(lay, d[lay.start], blocks, datas);
    assert |all| == |ws + [hw]| + |rest|;
    assert all[..|blocks| + 1 + j] == (ws + [hw]) + rest[..j];
    ApplyConcat(d, ws + [hw], rest[..j]);
    ApplySnoc(d, ws, hw);
  }

  lemma CommitEnds(lay: Layout, d: Disk, blocks: seq<int>, datas: seq<Block>)
    requires Quiet(lay, d)
    requires GoodBlocks(lay, |d|, blocks) && |blocks| == |datas| && blocks != []
    ensures var c := AtCommitPoint(lay, d, blocks, datas);
            WellFormed(lay, c) &&
            Apply(d, CommitWrites(lay, d[lay.start], blocks, datas)) == Apply(c, RecoveryWrites(lay, c))
  {
    var ws := LogWrites(lay, datas);
    var hw := Write(lay.start, PutHeader(d[lay.start], blocks));
    CommitIsLogThenRecovery(lay, d, blocks, datas);
    ApplyConcat(d, ws + [hw], RecoveryWrites(lay, AtCommitPoint(lay, d, blocks, datas)));
    ApplySnoc(d, ws, hw);
  }

  lemma AfterCommitPoint(lay: Layout, d: Disk, h: Disk, blocks: seq<int>, datas: seq<Block>, j: nat)
    requires Quiet(lay, d) && SameHome(lay, d, h)
    requires GoodBlocks(lay, |d|, blocks) && |blocks| == |datas| && blocks != []
    requires j <= |blocks| + 1
    ensures var r := Apply(d, CommitWrites(lay, d[lay.start], blocks, datas)[..|blocks| + 1 + j]);
            && Represents(lay, r, Installed(h, blocks, datas))
            && (j == |blocks| + 1 ==> Quiet(lay, r))
  {
    CommitPoint(lay, d, h, blocks, datas);
    CommitSuffix(lay, d, blocks, datas, j);
    RecoveryCut(lay, AtCommitPoint(lay, d, blocks, datas), Installed(h, blocks, datas), j);
  }

  /** Crash anywhere inside commit: old contents up to and including the log writes, new contents from the header write on. */
  lemma CommitCut(lay: Layout, d: Disk, h: Disk, blocks: seq<int>, datas: seq<Block>, k: nat)
    requires Quiet(lay, d) && SameHome(lay, d, h)
    requires GoodBlocks(lay, |d|, blocks) && |blocks| == |datas|
    requires k <= |CommitWrites(lay, d[lay.start], blocks, datas)|
    ensures Represents(lay, Apply(d, CommitWrites(lay, d[lay.start], blocks, datas)[..k]),
                       if k <= |blocks| then h else Installed(h, blocks, datas))
  {
    hide Represents, Apply, Installed, SameHome, GoodBlocks, Quiet;
    if k <= |blocks| {
      BeforeCommitPoint(lay, d, h, blocks, datas, k);
    } else {
      AfterCommitPoint(lay, d, h, blocks, datas, k - |blocks| - 1);
    }
  }

  // ---------------------------------------------------------------- whole histories

  /** What the disk goes through: a commit or a recovery, each cut after `cut` of its writes. */
  datatype Event =
    | Commit(blocks: seq<int>, datas: seq<Block>, cut: nat)
    | Recover(cut: nat)

  /** A commit starts on an empty log (initlog recovers before the first begin_op); recovery may start any time. */
  predicate Enabled(lay: Layout, d: Disk, e: Event)
    requires WellFormed(lay, d)
  {
    match e
    case Commit(blocks, datas, cut) =>
      && Quiet(lay, d) && GoodBlocks(lay, |d|, blocks) && |blocks| == |datas|
      && cut <= |CommitWrites(lay, d[lay.start], blocks, datas)|
    case Recover(cut) => cut <= |RecoveryWrites(lay, d)|
  }

  function Step(lay: Layout, d: Disk, e: Event): (r: Disk)
    requires WellFormed(lay, d) && Enabled(lay, d, e)
    ensures |r| == |d|
  {
    match e
    case Commit(blocks, datas, cut) => Apply(d, CommitWrites(lay, d[lay.start], blocks, datas)[..cut])
    case Recover(cut) => Apply(d, RecoveryWrites(lay, d)[..cut])
  }

  /** The specification: a transaction happens entirely, exactly when its header write reached the disk. */
  function LogicalStep(h: Disk, e: Event): (r: Disk)
    ensures |r| == |h|
  {
    match e
    case Commit(blocks, datas, cut) =>
      if |blocks| == |datas| && |blocks| < cut then Installed(h, blocks, datas) else h
    case Recover(_) => h
  }

  function LogicalRun(h: Disk, es: seq<Event>): (r: Disk)
    ensures |r| == |h|
    decreases |es|
  {
    if es == [] then h else LogicalRun(LogicalStep(h, es[0]), es[1..])
  }

  /** `ds` is the sequence of disks along a history `es` that starts in `ds[0]`. */
  predicate History(lay: Layout, ds: seq<Disk>, es: seq<Event>) {
    && |ds| == |es| + 1
    && (forall i :: 0 <= i < |es| ==> WellFormed(lay, ds[i]) && Enabled(lay, ds[i], es[i])
                                      && ds[i + 1] == Step(lay, ds[i], es[i]))
  }

  lemma StepRefines(lay: Layout, d: Disk, h: Disk, e: Event)
    requires Represents(lay, d, h) && Enabled(lay, d, e)
    ensures Represents(lay, Step(lay, d, e), LogicalStep(h, e))
  {
    match e
    case Commit(blocks, datas, cut) =>
      QuietRepresents(lay, d, h);
      CommitCut(lay, d, h, blocks, datas, cut);
    case Recover(cut) =>
      RecoveryCut(lay, d, h, cut);
  }

  lemma {:induction false} HistoryRefines(lay: Layout, ds: seq<Disk>, es: seq<Event>, h: Disk)
    requires History(lay, ds, es) && Represents(lay, ds[0], h)
    ensures Represents(lay, ds[|es|], LogicalRun(h, es))
    decreases |es|
  {
    if es != [] {
      StepRefines(lay, ds[0], h, es[0]);
      HistoryRefines(lay, ds[1..], es[1..], LogicalStep(h, es[0]));
    }
  }

  /**
   Crash atomicity over whole histories: any number of commits, each cut at any point, and recoveries, each
   cut at any point; a final complete recovery leaves exactly the transactions whose header write reached
   the disk, each of them entirely, in order, and an empty log.
   */
  lemma CrashAtomicity(lay: Layout, ds: seq<Disk>, es: seq<Event>)
    requires History(lay, ds, es) && Quiet(lay, ds[0])
    ensures WellFormed(lay, ds[|es|])
    ensures var r := Apply(ds[|es|], RecoveryWrites(lay, ds[|es|]));
            Quiet(lay, r) && SameHome(lay, r, LogicalRun(ds[0], es))
  {
    QuietRepresents(lay, ds[0], ds[0]);
    HistoryRefines(lay, ds, es, ds[0]);
    RecoveryCompletes(lay, ds[|es|], LogicalRun(ds[0], es));
  }

  /** Recoveries, each cut after the given number of writes. */
  function Recoveries(cuts: seq<nat>): (es: seq<Event>)
    ensures |es| == |cuts|
  {
    if cuts == [] then [] else [Recover(cuts[0])] + Recoveries(cuts[1..])
  }

  lemma {:induction false} RecoveriesChangeNothing(h: Disk, cuts: seq<nat>)
    ensures LogicalRun(h, Recoveries(cuts)) == h
    decreases |cuts|
  {
    if cuts != [] {
      assert Recoveries(cuts)[1..] == Recoveries(cuts[1..]);
      RecoveriesChangeNothing(h, cuts[1..]);
    }
  }

  lemma CommitThenRecoveries(h: Disk, e: Event, cuts: seq<nat>)
    ensures |[e] + Recoveries(cuts)| == |cuts| + 1
    ensures LogicalRun(h, [e] + Recoveries(cuts)) == LogicalStep(h, e)
  {
    hide LogicalStep;
    assert ([e] + Recoveries(cuts))[1..] == Recoveries(cuts);
    RecoveriesChangeNothing(LogicalStep(h, e), cuts);
  }

  /**
   One transaction: commit cut after `k` writes, then any number of recoveries that themselves crash, then one
   that completes. All home blocks are new exactly when the header write (write number |blocks|) was among the `k`.
   */
  lemma AllOrNothing(lay: Layout, ds: seq<Disk>, blocks: seq<int>, datas: seq<Block>, k: nat, cuts: seq<nat>)
    requires |blocks| == |datas|
    requires History(lay, ds, [Commit(blocks, datas, k)] + Recoveries(cuts)) && Quiet(lay, ds[0])
    ensures var last := ds[|cuts| + 1];
            && WellFormed(lay, last)
            && SameHome(lay, Apply(last, RecoveryWrites(lay, last)),
                        if k <= |blocks| then ds[0] else Installed(ds[0], blocks, datas))
  {
    hide Apply, Installed, SameHome, WellFormed, Quiet, RecoveryWrites, Enabled, Step, LogicalRun, Recoveries;
    CommitThenRecoveries(ds[0], Commit(blocks, datas, k), cuts);
    CrashAtomicity(lay, ds, [Commit(blocks, datas, k)] + Recoveries(cuts));
  }
}
