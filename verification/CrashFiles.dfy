/**
 Files across a crash: the file system's image laid out on the disk of the log. A chunk of filewrite whose logged
 blocks are committed, the commit and any number of recoveries being cut anywhere, leaves after recovery a disk on
 which the file reads either as before or entirely overwritten.
 */
module CrashFiles {
  import opened FsBlocks
  import opened FsOwner
  import opened FsFile
  import opened FsLogged
  import opened FileSystem
  import CrashLog
  import A = LogAdmission
  import R = LogRuns

  /** How free-map bits, inodes and data go into blocks. Only that nothing gets lost on the way matters here. */
  datatype Codec = Codec(freemap: seq<bool> -> CrashLog.Block, inodes: seq<Inode> -> CrashLog.Block, data: Block -> CrashLog.Block)

  ghost predicate Faithful(c: Codec) {
    && (forall x, y :: |x| == |y| <= BPB && c.freemap(x) == c.freemap(y) ==> x == y)
    && (forall x, y :: |x| == |y| <= IPB && Storable(x) && Storable(y) && c.inodes(x) == c.inodes(y) ==> x == y)
    && (forall x, y :: c.data(x) == c.data(y) ==> x == y)
  }

  /** The fields have the widths of struct dinode. */
  predicate StorableInode(f: Inode) {
    && -0x8000 <= f.kind < 0x8000 && -0x8000 <= f.nlink < 0x8000 && f.size < TWO32
    && |f.addrs| == NSLOT && forall k :: 0 <= k < NSLOT ==> f.addrs[k] < TWO32
  }

  predicate Storable(inodes: seq<Inode>) {
    forall j :: 0 <= j < |inodes| ==> StorableInode(inodes[j])
  }

  /** A transaction within the header's array and the log area. */
  predicate Fits(lay: CrashLog.Layout, touched: set<nat>) {
    |touched| <= CrashLog.LOGSIZE && |touched| < lay.size
  }

  /** mkfs's order: the log, the inode blocks, the free map and then the data. */
  predicate GoodPlan(lay: CrashLog.Layout, pl: Places, a: Image) {
    && 0 < |a.dinodes| && 0 < |a.data| <= |a.bits| <= ((|a.data| - 1) / BPB + 1) * BPB && pl.meta <= |a.data|
    && lay.start + lay.size <= pl.inodestart
    && IBlock(pl.inodestart, |a.dinodes| - 1) < pl.bmapstart
    && BBlock(pl.bmapstart, |a.data| - 1) < pl.meta
  }

  function Slice<T>(s: seq<T>, k: nat, n: nat): seq<T> {
    if k * n >= |s| then [] else if (k + 1) * n <= |s| then s[k * n..(k + 1) * n] else s[k * n..]
  }

  function EncodeBlock(c: Codec, pl: Places, a: Image, x: nat): CrashLog.Block
    requires x < |a.data|
  {
    if InodeBlock(x, pl.inodestart, |a.dinodes|) then c.inodes(Slice(a.dinodes, x - pl.inodestart, IPB))
    else if pl.bmapstart <= x <= BBlock(pl.bmapstart, |a.data| - 1) then c.freemap(Slice(a.bits, x - pl.bmapstart, BPB))
    else c.data(a.data[x])
  }

  /** The disk that holds an image. */
  function Encode(c: Codec, pl: Places, a: Image): (d: CrashLog.Disk)
    ensures |d| == |a.data|
  {
    seq(|a.data|, x requires 0 <= x < |a.data| => EncodeBlock(c, pl, a, x))
  }

  // ---------------------------------------------------------------- only logged blocks change

  lemma SliceSame<T>(s: seq<T>, t: seq<T>, k: nat, n: nat)
    requires |s| == |t| && (n == IPB || n == BPB) && forall j :: 0 <= j < |s| && j / n == k ==> s[j] == t[j]
    ensures Slice(s, k, n) == Slice(t, k, n)
  {
    forall j | k * n <= j < (k + 1) * n && j < |s| ensures s[j] == t[j] {
      Within(j, k, n);
    }
  }

  lemma Within(j: nat, k: nat, n: nat)
    requires (n == IPB || n == BPB) && k * n <= j < (k + 1) * n
    ensures j / n == k
  {
    if n == IPB {
      assert k * IPB <= j < k * IPB + IPB;
    } else {
      assert k * BPB <= j < k * BPB + BPB;
    }
  }

  lemma EncodeFrame(c: Codec, pl: Places, a: Image, b: Image, touched: set<nat>, x: nat)
    requires Changed(a, b, pl, {}, touched) && x < |a.data| && x !in touched
    ensures EncodeBlock(c, pl, b, x) == EncodeBlock(c, pl, a, x)
  {
    if InodeBlock(x, pl.inodestart, |a.dinodes|) {
      SliceSame(a.dinodes, b.dinodes, x - pl.inodestart, IPB);
    } else if pl.bmapstart <= x <= BBlock(pl.bmapstart, |a.data| - 1) {
      SliceSame(a.bits, b.bits, x - pl.bmapstart, BPB);
    }
  }

  /** The transaction of an operation: the blocks it logged, each once, with their new contents. */
  ghost predicate TransactionOf(c: Codec, pl: Places, b: Image, touched: set<nat>, blocks: seq<int>, datas: seq<CrashLog.Block>) {
    && |blocks| == |datas|
    && (forall i, j :: 0 <= i < j < |blocks| ==> blocks[i] != blocks[j])
    && (forall x: int :: x in blocks <==> x >= 0 && x in touched)
    && (forall i :: 0 <= i < |blocks| ==> 0 <= blocks[i] < |b.data| && datas[i] == EncodeBlock(c, pl, b, blocks[i]))
  }

  lemma TransactionGood(lay: CrashLog.Layout, c: Codec, pl: Places, a: Image, b: Image, touched: set<nat>,
                        blocks: seq<int>, datas: seq<CrashLog.Block>)
    requires GoodPlan(lay, pl, a) && Changed(a, b, pl, {}, touched) && Fits(lay, touched)
    requires TransactionOf(c, pl, b, touched, blocks, datas)
    ensures CrashLog.GoodBlocks(lay, |a.data|, blocks)
  {
    Sizes(touched, blocks);
    forall i | 0 <= i < |blocks| ensures !CrashLog.InLog(lay, blocks[i]) {
      var x: nat := blocks[i];
      assert x in blocks && x in touched;
    }
  }

  lemma Sizes(touched: set<nat>, blocks: seq<int>)
    requires forall i, j :: 0 <= i < j < |blocks| ==> blocks[i] != blocks[j]
    requires forall x: int :: x in blocks <==> x >= 0 && x in touched
    ensures |blocks| == |touched|
  {
    Sets.ListSize(blocks);
    var listed := set x | x in blocks;
    assert listed == set x: int | x in touched;
    SameSize(touched, listed);
  }

  lemma {:induction false} SameSize(a: set<nat>, b: set<int>)
    requires forall x: int :: x in b <==> x >= 0 && x in a
    ensures |a| == |b|
    decreases |a|
  {
    if a != {} {
      var x :| x in a;
      SameSize(a - {x}, b - {x});
    } else {
      assert forall x :: x !in b;
    }
  }

  /** Installing the transaction turns the disk of the old image into that of the new one. */
  lemma InstalledEncode(lay: CrashLog.Layout, c: Codec, pl: Places, a: Image, b: Image, touched: set<nat>,
                        blocks: seq<int>, datas: seq<CrashLog.Block>)
    requires CrashLog.GoodBlocks(lay, |a.data|, blocks) && Changed(a, b, pl, {}, touched)
    requires TransactionOf(c, pl, b, touched, blocks, datas)
    ensures CrashLog.Installed(Encode(c, pl, a), blocks, datas) == Encode(c, pl, b)
  {
    hide EncodeBlock, CrashLog.Apply;
    var d := Encode(c, pl, a);
    var r := CrashLog.Installed(d, blocks, datas);
    assert CrashLog.InstallWrites(blocks, datas)[..|blocks|] == CrashLog.InstallWrites(blocks, datas);
    CrashLog.InstallFrame(lay, d, blocks, datas, |blocks|);
    forall x | 0 <= x < |d| ensures r[x] == Encode(c, pl, b)[x] {
      if x in blocks {
        var i :| 0 <= i < |blocks| && blocks[i] == x;
        CrashLog.InstallHit(lay, d, blocks, datas, i);
      } else {
        EncodeFrame(c, pl, a, b, touched, x);
      }
    }
  }

  /** Two disks with the same home blocks still have the same home blocks after an installation. */
  lemma InstalledSame(lay: CrashLog.Layout, d: CrashLog.Disk, e: CrashLog.Disk, blocks: seq<int>, datas: seq<CrashLog.Block>)
    requires CrashLog.SameHome(lay, d, e) && CrashLog.GoodBlocks(lay, |d|, blocks) && |blocks| == |datas|
    ensures CrashLog.SameHome(lay, CrashLog.Installed(d, blocks, datas), CrashLog.Installed(e, blocks, datas))
  {
    hide CrashLog.Apply;
    var ws := CrashLog.InstallWrites(blocks, datas);
    assert ws[..|blocks|] == ws;
    CrashLog.InstallFrame(lay, d, blocks, datas, |blocks|);
    CrashLog.InstallFrame(lay, e, blocks, datas, |blocks|);
    forall x | 0 <= x < |d| && !CrashLog.InLog(lay, x)
      ensures CrashLog.Installed(d, blocks, datas)[x] == CrashLog.Installed(e, blocks, datas)[x]
    {
      if x in blocks {
        var i :| 0 <= i < |blocks| && blocks[i] == x;
        CrashLog.InstallHit(lay, d, blocks, datas, i);
        CrashLog.InstallHit(lay, e, blocks, datas, i);
      }
    }
  }

  /** What the disks go through: the operation's commit cut after `k` writes, then recoveries cut after `cuts` writes. */
  ghost predicate CrashRun(lay: CrashLog.Layout, ds: seq<CrashLog.Disk>, blocks: seq<int>, datas: seq<CrashLog.Block>,
                           k: nat, cuts: seq<nat>) {
    && |blocks| == |datas|
    && CrashLog.History(lay, ds, [CrashLog.Commit(blocks, datas, k)] + CrashLog.Recoveries(cuts))
    && CrashLog.Quiet(lay, ds[0])
  }

  /** The disk after a final, complete recovery. */
  ghost function Recovered(lay: CrashLog.Layout, d: CrashLog.Disk): CrashLog.Disk {
    if CrashLog.WellFormed(lay, d) then CrashLog.Apply(d, CrashLog.RecoveryWrites(lay, d)) else d
  }

  /** The recovered disk holds the old image or the new one, the new one exactly if the header write was among the k. */
  lemma ImageAfterCrash(lay: CrashLog.Layout, c: Codec, pl: Places, a: Image, b: Image, touched: set<nat>,
                        ds: seq<CrashLog.Disk>, blocks: seq<int>, datas: seq<CrashLog.Block>, k: nat, cuts: seq<nat>)
    requires GoodPlan(lay, pl, a) && Changed(a, b, pl, {}, touched) && Fits(lay, touched)
    requires TransactionOf(c, pl, b, touched, blocks, datas)
    requires CrashRun(lay, ds, blocks, datas, k, cuts) && CrashLog.SameHome(lay, ds[0], Encode(c, pl, a))
    ensures CrashLog.WellFormed(lay, ds[|ds| - 1])
    ensures CrashLog.SameHome(lay, Recovered(lay, ds[|ds| - 1]), Encode(c, pl, if k <= |blocks| then a else b))
  {
    hide Encode, CrashLog.Apply, CrashLog.Installed, CrashLog.RecoveryWrites, CrashLog.WellFormed, CrashLog.GoodBlocks,
         Changed, TransactionOf, CrashLog.Recoveries, CrashLog.Quiet;
    TransactionGood(lay, c, pl, a, b, touched, blocks, datas);
    CrashLog.CommitThenRecoveries(ds[0], CrashLog.Commit(blocks, datas, k), cuts);
    CrashLog.AllOrNothing(lay, ds, blocks, datas, k, cuts);
    SameLength(c, pl, a);
    if k > |blocks| {
      InstalledSame(lay, ds[0], Encode(c, pl, a), blocks, datas);
      InstalledEncode(lay, c, pl, a, b, touched, blocks, datas);
    }
  }

  lemma RunLength(lay: CrashLog.Layout, ds: seq<CrashLog.Disk>, es: seq<CrashLog.Event>)
    requires CrashLog.History(lay, ds, es)
    ensures |ds| == |es| + 1
  {
  }

  lemma SameLength(c: Codec, pl: Places, a: Image)
    ensures |Encode(c, pl, a)| == |a.data|
  {
  }

  // ---------------------------------------------------------------- reading the recovered disk

  lemma SliceAt<T>(s: seq<T>, j: nat, n: nat)
    requires j < |s| && (n == IPB || n == BPB)
    ensures var k := j / n; 0 <= j - k * n < |Slice(s, k, n)| <= n && Slice(s, k, n)[j - k * n] == s[j]
  {
    if n == IPB {
      assert j == j / IPB * IPB + j % IPB;
    } else {
      assert j == j / BPB * BPB + j % BPB;
    }
  }

  lemma SliceLength<T>(s: seq<T>, t: seq<T>, k: nat, n: nat)
    requires |s| == |t|
    ensures |Slice(s, k, n)| == |Slice(t, k, n)|
  {
  }

  lemma SliceStorable(s: seq<Inode>, k: nat)
    requires Storable(s)
    ensures Storable(Slice(s, k, IPB))
  {
  }

  lemma SameInodes(c: Codec, x: seq<Inode>, y: seq<Inode>)
    requires Faithful(c) && |x| == |y| <= IPB && Storable(x) && Storable(y) && c.inodes(x) == c.inodes(y)
    ensures x == y
  {
  }

  lemma SameBits(c: Codec, x: seq<bool>, y: seq<bool>)
    requires Faithful(c) && |x| == |y| <= BPB && c.freemap(x) == c.freemap(y)
    ensures x == y
  {
  }

  lemma InodesTell(lay: CrashLog.Layout, c: Codec, pl: Places, a: Image, u: Image, j: nat)
    requires Faithful(c) && GoodPlan(lay, pl, a) && SameSizes(a, u) && j < |a.dinodes| && Storable(a.dinodes) && Storable(u.dinodes)
    requires CrashLog.SameHome(lay, Encode(c, pl, a), Encode(c, pl, u))
    ensures u.dinodes[j] == a.dinodes[j]
  {
    hide Slice, Faithful, Storable;
    var x := IBlock(pl.inodestart, j);
    assert InodeBlock(x, pl.inodestart, |a.dinodes|) && !CrashLog.InLog(lay, x);
    assert Encode(c, pl, a)[x] == Encode(c, pl, u)[x];
    SliceAt(a.dinodes, j, IPB);
    SliceAt(u.dinodes, j, IPB);
    SliceLength(a.dinodes, u.dinodes, j / IPB, IPB);
    SliceStorable(a.dinodes, j / IPB);
    SliceStorable(u.dinodes, j / IPB);
    SameInodes(c, Slice(a.dinodes, j / IPB, IPB), Slice(u.dinodes, j / IPB, IPB));
  }

  lemma BitsTell(lay: CrashLog.Layout, c: Codec, pl: Places, a: Image, u: Image, j: nat)
    requires Faithful(c) && GoodPlan(lay, pl, a) && SameSizes(a, u) && j < |a.bits|
    requires CrashLog.SameHome(lay, Encode(c, pl, a), Encode(c, pl, u))
    ensures u.bits[j] == a.bits[j]
  {
    hide Slice, Faithful;
    var x := BBlock(pl.bmapstart, j);
    assert pl.bmapstart <= x <= BBlock(pl.bmapstart, |a.data| - 1);
    assert !InodeBlock(x, pl.inodestart, |a.dinodes|) && !CrashLog.InLog(lay, x);
    assert Encode(c, pl, a)[x] == Encode(c, pl, u)[x];
    SliceAt(a.bits, j, BPB);
    SliceAt(u.bits, j, BPB);
    SliceLength(a.bits, u.bits, j / BPB, BPB);
    SameBits(c, Slice(a.bits, j / BPB, BPB), Slice(u.bits, j / BPB, BPB));
  }

  lemma DataTell(lay: CrashLog.Layout, c: Codec, pl: Places, a: Image, u: Image, x: nat)
    requires Faithful(c) && GoodPlan(lay, pl, a) && SameSizes(a, u) && pl.meta <= x < |a.data|
    requires CrashLog.SameHome(lay, Encode(c, pl, a), Encode(c, pl, u))
    ensures u.data[x] == a.data[x]
  {
    hide Slice;
    assert !InodeBlock(x, pl.inodestart, |a.dinodes|) && !CrashLog.InLog(lay, x);
    assert Encode(c, pl, a)[x] == Encode(c, pl, u)[x];
  }

  predicate SameSizes(a: Image, u: Image) {
    |u.bits| == |a.bits| && |u.data| == |a.data| && |u.dinodes| == |a.dinodes|
  }

  /** The file system a mount finds in an image. */
  ghost function Mounted(u: Image): Fs {
    Fs(u.bits, u.data, u.dinodes, map[])
  }

  /** Files live in data blocks, so images that agree there and on the inodes have the same files. */
  lemma SameFile(s: Fs, u: Fs, meta: nat, i: nat)
    requires Good(s, meta) && Readable(s, i) && u.files == s.files && |u.data| == |s.data|
    requires forall x :: meta <= x < |s.data| ==> u.data[x] == s.data[x]
    ensures Readable(u, i) && Content(u, i) == Content(s, i)
  {
    forall k | 0 <= k <= INDIRECT ensures SlotOf(u, i, k) == SlotOf(s, i, k) {
      SlotInRange(s, meta, i, INDIRECT);
      SlotData(s, meta, i, INDIRECT);
    }
    forall k | 0 <= k < NB(s.files[i].size) ensures HasSlot(u, i, k) {
      assert HasSlot(s, i, k);
    }
    forall p | 0 <= p < s.files[i].size ensures Content(u, i)[p] == Content(s, i)[p] {
      assert HasSlot(s, i, p / BSIZE);
      SlotData(s, meta, i, p / BSIZE);
    }
  }

  lemma SlotData(s: Fs, meta: nat, i: nat, k: nat)
    requires Good(s, meta) && i < |s.files| && k <= INDIRECT
    ensures SlotOf(s, i, k) == 0 || meta <= SlotOf(s, i, k) < |s.data|
  {
    SlotInRange(s, meta, i, k);
  }

  lemma MountedFile(lay: CrashLog.Layout, c: Codec, pl: Places, s: Fs, u: Image, i: nat)
    requires Faithful(c) && GoodPlan(lay, pl, Image(s.bits, s.data, s.files)) && SameSizes(Image(s.bits, s.data, s.files), u)
    requires CrashLog.SameHome(lay, Encode(c, pl, Image(s.bits, s.data, s.files)), Encode(c, pl, u))
    requires Good(s, pl.meta) && Readable(s, i) && Storable(s.files) && Storable(u.dinodes)
    ensures Readable(Mounted(u), i) && Content(Mounted(u), i) == Content(s, i)
  {
    hide Encode, Faithful, Good, Readable, Content, GoodPlan;
    var a := Image(s.bits, s.data, s.files);
    forall j | 0 <= j < |s.files| ensures u.dinodes[j] == s.files[j] {
      InodesTell(lay, c, pl, a, u, j);
    }
    forall x | pl.meta <= x < |s.data| ensures u.data[x] == s.data[x] {
      DataTell(lay, c, pl, a, u, x);
    }
    assert u.dinodes == s.files;
    SameFile(s, Mounted(u), pl.meta, i);
  }

  lemma MountedMap(lay: CrashLog.Layout, c: Codec, pl: Places, a: Image, u: Image)
    requires Faithful(c) && GoodPlan(lay, pl, a) && SameSizes(a, u)
    requires CrashLog.SameHome(lay, Encode(c, pl, a), Encode(c, pl, u))
    ensures u.bits == a.bits
  {
    hide Encode, Faithful, GoodPlan;
    forall j | 0 <= j < |a.bits| ensures u.bits[j] == a.bits[j] {
      BitsTell(lay, c, pl, a, u, j);
    }
  }

  /**
   A transaction took the file system from `s` to `t` and logged the blocks in `touched`. Its commit is cut after any
   number of writes, and so is any number of recoveries; then one recovery completes. Whatever image the disk then
   holds, its free map, inodes and files are those of `s` if the header write had not reached the disk, of `t` if it had.
   */
  lemma FilesAfterCrash(lay: CrashLog.Layout, c: Codec, pl: Places, s: Fs, t: Fs, touched: set<nat>,
                        ds: seq<CrashLog.Disk>, blocks: seq<int>, datas: seq<CrashLog.Block>, k: nat, cuts: seq<nat>, u: Image)
    requires Faithful(c) && GoodPlan(lay, pl, Image(s.bits, s.data, s.files))
    requires Good(s, pl.meta) && Good(t, pl.meta) && Fits(lay, touched)
    requires Changed(Image(s.bits, s.data, s.files), Image(t.bits, t.data, t.files), pl, {}, touched)
    requires TransactionOf(c, pl, Image(t.bits, t.data, t.files), touched, blocks, datas)
    requires CrashRun(lay, ds, blocks, datas, k, cuts)
    requires CrashLog.SameHome(lay, ds[0], Encode(c, pl, Image(s.bits, s.data, s.files)))
    requires SameSizes(Image(s.bits, s.data, s.files), u) && Storable(s.files) && Storable(t.files) && Storable(u.dinodes)
    requires CrashLog.SameHome(lay, Recovered(lay, ds[|ds| - 1]), Encode(c, pl, u))
    ensures CrashLog.WellFormed(lay, ds[|ds| - 1])
    ensures var v := if k <= |blocks| then s else t;
            && u.bits == v.bits && |v.files| == |s.files|
            && forall j :: 0 <= j < |s.files| && Readable(v, j) ==> Readable(Mounted(u), j) && Content(Mounted(u), j) == Content(v, j)
  {
    hide Encode, Faithful, Good, Readable, Content, TransactionOf, Recovered, CrashLog.History, CrashLog.Quiet;
    RunLength(lay, ds, [CrashLog.Commit(blocks, datas, k)] + CrashLog.Recoveries(cuts));
    var a, b := Image(s.bits, s.data, s.files), Image(t.bits, t.data, t.files);
    ImageAfterCrash(lay, c, pl, a, b, touched, ds, blocks, datas, k, cuts);
    var v := if k <= |blocks| then s else t;
    SameHomeThen(lay, Encode(c, pl, Image(v.bits, v.data, v.files)), Recovered(lay, ds[|ds| - 1]), Encode(c, pl, u));
    MountedMap(lay, c, pl, Image(v.bits, v.data, v.files), u);
    forall j | 0 <= j < |s.files| && Readable(v, j)
      ensures Readable(Mounted(u), j) && Content(Mounted(u), j) == Content(v, j)
    {
      MountedFile(lay, c, pl, v, u, j);
    }
  }

  /** After a chunk of filewrite: inode `i` reads as before or as entirely overwritten, every other file as before. */
  lemma FileAfterCrash(lay: CrashLog.Layout, c: Codec, pl: Places, s: Fs, t: Fs, i: nat, off: nat, src: seq<byte>, touched: set<nat>,
                       ds: seq<CrashLog.Disk>, blocks: seq<int>, datas: seq<CrashLog.Block>, k: nat, cuts: seq<nat>, u: Image)
    requires Faithful(c) && GoodPlan(lay, pl, Image(s.bits, s.data, s.files))
    requires Good(s, pl.meta) && Good(t, pl.meta) && WroteBytes(s, t, i, off, src) && Fits(lay, touched)
    requires Changed(Image(s.bits, s.data, s.files), Image(t.bits, t.data, t.files), pl, {}, touched)
    requires TransactionOf(c, pl, Image(t.bits, t.data, t.files), touched, blocks, datas)
    requires CrashRun(lay, ds, blocks, datas, k, cuts)
    requires CrashLog.SameHome(lay, ds[0], Encode(c, pl, Image(s.bits, s.data, s.files)))
    requires SameSizes(Image(s.bits, s.data, s.files), u) && Storable(s.files) && Storable(t.files) && Storable(u.dinodes)
    requires CrashLog.SameHome(lay, Recovered(lay, ds[|ds| - 1]), Encode(c, pl, u))
    ensures CrashLog.WellFormed(lay, ds[|ds| - 1])
    ensures u.bits == if k <= |blocks| then s.bits else t.bits
    ensures Readable(s, i) && Readable(Mounted(u), i)
    ensures Content(Mounted(u), i) == if k <= |blocks| then Content(s, i) else Overwrite(Content(s, i), off, src)
    ensures forall j :: 0 <= j < |s.files| && j != i && Readable(s, j) ==>
              Readable(Mounted(u), j) && Content(Mounted(u), j) == Content(s, j)
  {
    hide Encode, Faithful, GoodPlan, Good, Changed, Content, TransactionOf, CrashRun, Recovered, Overwrite, CrashLog.WellFormed,
         CrashLog.SameHome, HasSlot;
    FilesAfterCrash(lay, c, pl, s, t, touched, ds, blocks, datas, k, cuts, u);
  }

  /** After a transaction that truncates inode `i`: it reads as before or as empty, every other file as before. */
  lemma TruncAfterCrash(lay: CrashLog.Layout, c: Codec, pl: Places, s: Fs, t: Fs, i: nat, touched: set<nat>,
                        ds: seq<CrashLog.Disk>, blocks: seq<int>, datas: seq<CrashLog.Block>, k: nat, cuts: seq<nat>, u: Image)
    requires Faithful(c) && GoodPlan(lay, pl, Image(s.bits, s.data, s.files))
    requires Good(s, pl.meta) && Good(t, pl.meta) && Readable(s, i) && Fits(lay, touched)
    requires OthersSame(s, t, i) && GoodInode(t.files[i]) && t.files[i].size == 0
    requires Changed(Image(s.bits, s.data, s.files), Image(t.bits, t.data, t.files), pl, {}, touched)
    requires TransactionOf(c, pl, Image(t.bits, t.data, t.files), touched, blocks, datas)
    requires CrashRun(lay, ds, blocks, datas, k, cuts)
    requires CrashLog.SameHome(lay, ds[0], Encode(c, pl, Image(s.bits, s.data, s.files)))
    requires SameSizes(Image(s.bits, s.data, s.files), u) && Storable(s.files) && Storable(t.files) && Storable(u.dinodes)
    requires CrashLog.SameHome(lay, Recovered(lay, ds[|ds| - 1]), Encode(c, pl, u))
    ensures CrashLog.WellFormed(lay, ds[|ds| - 1])
    ensures u.bits == if k <= |blocks| then s.bits else t.bits
    ensures Readable(Mounted(u), i) && Content(Mounted(u), i) == if k <= |blocks| then Content(s, i) else []
    ensures forall j :: 0 <= j < |s.files| && j != i && Readable(s, j) ==>
              Readable(Mounted(u), j) && Content(Mounted(u), j) == Content(s, j)
  {
    hide Encode, Faithful, GoodPlan, Good, Changed, TransactionOf, CrashRun, Recovered, CrashLog.WellFormed,
         CrashLog.SameHome, HasSlot;
    assert Readable(t, i) && Content(t, i) == [];
    FilesAfterCrash(lay, c, pl, s, t, touched, ds, blocks, datas, k, cuts, u);
  }

  lemma SameHomeThen(lay: CrashLog.Layout, d: CrashLog.Disk, r: CrashLog.Disk, e: CrashLog.Disk)
    requires CrashLog.SameHome(lay, r, d) && CrashLog.SameHome(lay, r, e)
    ensures CrashLog.SameHome(lay, d, e)
  {
  }

  // ---------------------------------------------------------------- files along runs of the log

  function ImageOf(s: Fs): Image {
    Image(s.bits, s.data, s.files)
  }

  /** Logging the blocks an operation changed turns blocks that hold the old image into blocks that hold the new one. */
  lemma StoredEncode(lay: CrashLog.Layout, c: Codec, pl: Places, a: Image, b: Image, touched: set<nat>,
                     before: CrashLog.Disk, after: CrashLog.Disk)
    requires CrashLog.SameHome(lay, before, Encode(c, pl, a)) && Changed(a, b, pl, {}, touched) && |after| == |before|
    requires forall x :: 0 <= x < |after| ==> after[x] == if x in touched then EncodeBlock(c, pl, b, x) else before[x]
    ensures CrashLog.SameHome(lay, after, Encode(c, pl, b))
  {
    hide EncodeBlock;
    forall x | 0 <= x < |after| && !CrashLog.InLog(lay, x) ensures after[x] == Encode(c, pl, b)[x] {
      if x !in touched {
        EncodeFrame(c, pl, a, b, touched, x);
      }
    }
  }

  predicate AtRest(s: A.State) {
    forall p :: 0 <= p < |s.roles| ==> !A.Operating(s.roles[p])
  }

  /** The blocks hold file system `f`. */
  ghost predicate HoldsFs(lay: CrashLog.Layout, c: Codec, pl: Places, d: CrashLog.Disk, f: Fs) {
    && Good(f, pl.meta) && GoodPlan(lay, pl, ImageOf(f)) && Storable(f.files)
    && CrashLog.SameHome(lay, d, Encode(c, pl, ImageOf(f)))
  }

  /**
   A run of the log on the buffer cache, with the file system that the blocks hold whenever no operation is under way.
   Crash in any state `k`, overrun log or not; recoveries that are cut anywhere; one that completes. Whatever image the
   disk then holds is, in free map and every file, the file system of one state `j`: the last commit point, or the start.
   */
  lemma FilesInRuns(lay: CrashLog.Layout, c: Codec, pl: Places, ss: seq<R.State>, acts: seq<R.Action>, fss: seq<Fs>, k: nat,
                    ds: seq<CrashLog.Disk>, cuts: seq<nat>, u: Image)
    returns (j: nat)
    requires Faithful(c) && R.Run(lay, ss, acts) && |fss| == |ss| && k < |ss|
    requires forall m :: 0 <= m < |ss| && AtRest(ss[m].log) ==>
               HoldsFs(lay, c, pl, ss[m].cache.contents, fss[m]) && SameSizes(ImageOf(fss[m]), u)
    requires CrashLog.History(lay, ds, CrashLog.Recoveries(cuts)) && ds[0] == ss[k].cache.disk
    requires Storable(u.dinodes) && CrashLog.SameHome(lay, Recovered(lay, ds[|cuts|]), Encode(c, pl, u))
    ensures j <= k && AtRest(ss[j].log) && (j == 0 || (j < k && R.Commits(ss[j], acts[j])))
    ensures forall i :: j < i < k ==> !R.Commits(ss[i], acts[i])
    ensures u.bits == fss[j].bits
    ensures forall n :: 0 <= n < |u.dinodes| && Readable(fss[j], n) ==>
              Readable(Mounted(u), n) && Content(Mounted(u), n) == Content(fss[j], n)
  {
    hide R.Run, Encode, Faithful, Good, GoodPlan, Readable, Content, Storable, CrashLog.History, CrashLog.SameHome, CrashLog.Apply,
         CrashLog.RecoveryWrites;
    RunLength(lay, ds, CrashLog.Recoveries(cuts));
    j := R.WholeOperations(lay, ss, acts, k);
    R.CrashSafety(lay, ss, acts, k, ds, cuts);
    var v := fss[j];
    assert AtRest(ss[j].log);
    assert HoldsFs(lay, c, pl, ss[k].home, v);
    SameHomeChain(lay, Recovered(lay, ds[|cuts|]), ss[k].home, Encode(c, pl, ImageOf(v)), Encode(c, pl, u));
    MountedMap(lay, c, pl, ImageOf(v), u);
    forall n | 0 <= n < |u.dinodes| && Readable(v, n)
      ensures Readable(Mounted(u), n) && Content(Mounted(u), n) == Content(v, n)
    {
      MountedFile(lay, c, pl, v, u, n);
    }
  }

  lemma SameHomeChain(lay: CrashLog.Layout, r: CrashLog.Disk, h: CrashLog.Disk, d: CrashLog.Disk, e: CrashLog.Disk)
    requires CrashLog.SameHome(lay, r, h) && CrashLog.SameHome(lay, h, d) && CrashLog.SameHome(lay, r, e)
    ensures CrashLog.SameHome(lay, d, e)
  {
  }
}
