/**
 fs.c and file.c as an object: free map, data blocks and inodes updated in place by the loops of
 balloc, bfree, bmap, itrunc, readi, writei and filewrite.
 */
module FileSystem {
  import opened Sets
  import opened FsBlocks
  import opened FsOwner
  import opened FsFile
  import opened FsLogged

  /** bmap's outcome: a block, or one of the two panics below it. */
  datatype MapResult = Addr(b: nat) | OutOfBlocks | OutOfRange

  predicate Full(bits: seq<bool>, size: nat) {
    |bits| >= size && forall b :: 0 <= b < size ==> bits[b]
  }

  /** The blocks that mapping slot `bn` of inode `i` hands to log_write. */
  ghost function MapCost(bmapstart: nat, i: nat, bn: nat, s: Fs, t: Fs): set<nat>
    requires i < |s.files| && GoodInode(s.files[i]) && i < |t.files| && GoodInode(t.files[i]) && bn < MAXFILE
  {
    var b, ind := SlotOf(t, i, bn), SlotOf(t, i, INDIRECT);
    if SlotOf(s, i, bn) != 0 then {}
    else {b, BBlock(bmapstart, b)} + (if bn < NDIRECT then {} else {ind}) +
         (if SlotOf(s, i, INDIRECT) != ind then {BBlock(bmapstart, ind)} else {})
  }

  /** Allocating the indirect block and then an entry in it logs what one mapping step may. */
  lemma LinkCost(s: Fs, t: Fs, u: Fs, meta: nat, bmapstart: nat, i: nat, bn: nat, b: nat)
    requires Good(s, meta) && i < |s.files| && Free(s, b) && b != 0 && s.files[i].addrs[NDIRECT] == 0
    requires t == AddDirect(s, i, NDIRECT, b) && Good(t, meta) && Good(u, meta)
    requires NDIRECT <= bn < MAXFILE && SlotOf(s, i, bn) == 0 && SlotOf(t, i, bn) == 0 && Mapped(t, u, i, bn)
    ensures |u.files| == |s.files|
    ensures MapCost(bmapstart, i, bn, s, u) == {BBlock(bmapstart, b), b} + MapCost(bmapstart, i, bn, t, u)
  {
  }

  // ---------------------------------------------------------------- how many blocks a write logs

  ghost function IndirectSet(t: Fs, i: nat): set<nat>
    requires i < |t.files| && GoodInode(t.files[i])
  {
    if SlotOf(t, i, INDIRECT) == 0 then {} else {SlotOf(t, i, INDIRECT)}
  }

  /** Logged so far, the indirect block aside: one block per round, a free-map block per new block. */
  ghost predicate CostOk(cost: set<nat>, s: Fs, t: Fs, i: nat, rounds: int, grown: int)
    requires i < |s.files| && GoodInode(s.files[i]) && i < |t.files| && GoodInode(t.files[i])
  {
    |cost - IndirectSet(t, i)| <= rounds + grown + (if SlotOf(s, i, INDIRECT) != SlotOf(t, i, INDIRECT) then 1 else 0)
  }

  lemma IndirectSlotAfterMap(s: Fs, t: Fs, meta: nat, i: nat, bn: nat)
    requires Good(s, meta) && Good(t, meta) && Mapped(s, t, i, bn)
    ensures SlotOf(s, i, INDIRECT) != 0 ==> SlotOf(t, i, INDIRECT) == SlotOf(s, i, INDIRECT)
    ensures bn < NDIRECT ==> SlotOf(t, i, INDIRECT) == SlotOf(s, i, INDIRECT)
  {
    if SlotOf(s, i, INDIRECT) != 0 {
      SlotKept(s, t, i, meta, i, INDIRECT);
    } else if SlotOf(t, i, INDIRECT) != 0 {
      SlotInRange(t, meta, i, INDIRECT);
    }
  }

  /** One round: at most the data block, its free-map block and, once, the indirect block's free-map block. */
  lemma CostStep(s: Fs, t: Fs, u: Fs, meta: nat, i: nat, bn: nat, bmapstart: nat, cost: set<nat>, rounds: int, grown: int)
    requires i < |s.files| && GoodInode(s.files[i])
    requires Good(t, meta) && Good(u, meta) && Mapped(t, u, i, bn)
    requires SlotOf(s, i, INDIRECT) != 0 ==> SlotOf(t, i, INDIRECT) == SlotOf(s, i, INDIRECT)
    requires CostOk(cost, s, t, i, rounds, grown)
    ensures CostOk(cost + MapCost(bmapstart, i, bn, t, u) + {SlotOf(u, i, bn)}, s, u, i, rounds + 1,
                   grown + if SlotOf(t, i, bn) == 0 then 1 else 0)
  {
    IndirectSlotAfterMap(t, u, meta, i, bn);
    var b, ind := SlotOf(u, i, bn), SlotOf(u, i, INDIRECT);
    var cost' := cost + MapCost(bmapstart, i, bn, t, u) + {b};
    var extra := if SlotOf(t, i, bn) != 0 then {b}
                 else {b, BBlock(bmapstart, b)} + if SlotOf(t, i, INDIRECT) != ind then {BBlock(bmapstart, ind)} else {};
    assert |{b}| == 1;
    UnionSize({b, BBlock(bmapstart, b)}, {b}, {BBlock(bmapstart, b)});
    UnionSize({b, BBlock(bmapstart, b)} + {BBlock(bmapstart, ind)}, {b, BBlock(bmapstart, b)}, {BBlock(bmapstart, ind)});
    assert cost' - IndirectSet(u, i) <= (cost - IndirectSet(t, i)) + extra;
    UnionSize(cost' - IndirectSet(u, i), cost - IndirectSet(t, i), extra);
  }

  /** Blocks the first `w` bytes written at `off` reach into. */
  function Rounds(off: nat, w: nat): int {
    if w == 0 then 0 else NB(off + w) - off / BSIZE
  }

  function Grown(off: nat, w: nat, nb0: nat): nat {
    Max(nb0, NB(off + w)) - nb0
  }

  /** Bytes written in one round, as writei computes them. */
  function RoundSize(off: nat, n: nat, w: nat): (m: nat)
    requires w < n
    ensures Round(off, n, w, (off + w) / BSIZE, (off + w) % BSIZE, m)
    ensures w + m == n || (off + w + m) % BSIZE == 0
  {
    if n - w < BSIZE - (off + w) % BSIZE then n - w else BSIZE - (off + w) % BSIZE
  }

  lemma RoundCounts(off: nat, n: nat, w: nat, nb0: nat)
    requires w < n && (w == 0 || (off + w) % BSIZE == 0) && NB(off) <= nb0
    ensures var m := RoundSize(off, n, w);
            && Rounds(off, w + m) == Rounds(off, w) + 1
            && Grown(off, w + m, nb0) == Grown(off, w, nb0) + if (off + w) / BSIZE == Max(nb0, NB(off + w)) then 1 else 0
  {
    var m := RoundSize(off, n, w);
    RoundBlocks(off, n, w, (off + w) / BSIZE, (off + w) % BSIZE, m, nb0);
  }

  /** A round maps a new block exactly when it goes past the blocks the file has. */
  lemma RoundGrows(s: Fs, t: Fs, meta: nat, i: nat, off: nat, src: seq<byte>, w: nat, nb0: nat)
    requires Written(s, t, meta, i, off, src, w, nb0) && NB(off) <= nb0 && w < |src| && off + |src| <= MAXFILE * BSIZE
    ensures (off + w) / BSIZE < MAXFILE
    ensures SlotOf(t, i, (off + w) / BSIZE) == 0 <==> (off + w) / BSIZE == Max(nb0, NB(off + w))
  {
    var m := RoundSize(off, |src|, w);
    RoundBlocks(off, |src|, w, (off + w) / BSIZE, (off + w) % BSIZE, m, nb0);
  }

  lemma CostAfterPut(cost: set<nat>, s: Fs, u: Fs, i: nat, a: nat, o: nat, chunk: seq<byte>, rounds: int, grown: int)
    requires i < |s.files| && GoodInode(s.files[i]) && i < |u.files| && GoodInode(u.files[i])
    requires a < |u.data| && o + |chunk| <= BSIZE
    requires CostOk(cost, s, u, i, rounds, grown)
    ensures CostOk(cost, s, PutBytes(u, a, o, chunk), i, rounds, grown)
  {
  }

  lemma NothingCosts(s: Fs, i: nat, off: nat, nb0: nat)
    requires i < |s.files| && GoodInode(s.files[i]) && NB(off) <= nb0
    ensures CostOk({}, s, s, i, Rounds(off, 0), Grown(off, 0, nb0))
  {
  }

  lemma WrittenGood(s: Fs, t: Fs, meta: nat, i: nat, off: nat, src: seq<byte>, w: nat, nb0: nat)
    requires Written(s, t, meta, i, off, src, w, nb0)
    ensures Good(t, meta) && i < |t.files| && GoodInode(t.files[i])
  {
  }

  lemma RoundFits(off: nat, n: nat, w: nat)
    requires w < n
    ensures var m := RoundSize(off, n, w); 0 < m && w + m <= n && (off + w) % BSIZE + m <= BSIZE
  {
  }

  lemma IndirectKept(s: Fs, t: Fs, meta: nat, i: nat, off: nat, src: seq<byte>, w: nat, nb0: nat)
    requires Good(s, meta) && Written(s, t, meta, i, off, src, w, nb0)
    ensures SlotOf(s, i, INDIRECT) != 0 ==> SlotOf(t, i, INDIRECT) == SlotOf(s, i, INDIRECT)
  {
    if SlotOf(s, i, INDIRECT) != 0 {
      SlotKept(s, t, i, meta, i, INDIRECT);
    }
  }

  lemma CostRound(s: Fs, t: Fs, u: Fs, meta: nat, i: nat, bn: nat, bmapstart: nat, cost: set<nat>,
                  off: nat, n: nat, w: nat, m: nat, nb0: nat)
    requires i < |s.files| && GoodInode(s.files[i])
    requires Good(t, meta) && Good(u, meta) && Mapped(t, u, i, bn)
    requires SlotOf(s, i, INDIRECT) != 0 ==> SlotOf(t, i, INDIRECT) == SlotOf(s, i, INDIRECT)
    requires w < n && (w == 0 || (off + w) % BSIZE == 0) && NB(off) <= nb0 && m == RoundSize(off, n, w)
    requires SlotOf(t, i, bn) == 0 <==> (off + w) / BSIZE == Max(nb0, NB(off + w))
    requires CostOk(cost, s, t, i, Rounds(off, w), Grown(off, w, nb0))
    ensures CostOk(cost + MapCost(bmapstart, i, bn, t, u) + {SlotOf(u, i, bn)}, s, u, i,
                   Rounds(off, w + m), Grown(off, w + m, nb0))
  {
    hide *;
    RoundCounts(off, n, w, nb0);
    CostStep(s, t, u, meta, i, bn, bmapstart, cost, Rounds(off, w), Grown(off, w, nb0));
  }

  // ---------------------------------------------------------------- what a finished write means

  lemma OthersShaped(s: Fs, t: Fs, meta: nat, i: nat, j: nat)
    requires Good(s, meta) && Good(t, meta) && Grows(s, t, i) && j != i && j < |s.files|
    requires Shape(s.data, s.files[j], NB(s.files[j].size))
    ensures Shape(t.data, t.files[j], NB(t.files[j].size))
  {
    forall k | 0 <= k < MAXFILE ensures Ref(t.data, t.files[j], k) == Ref(s.data, s.files[j], k) {
      SlotKept(s, t, i, meta, j, k);
      assert SlotOf(t, j, k) == SlotOf(s, j, k);
    }
    SlotKept(s, t, i, meta, j, INDIRECT);
  }

  ghost predicate OthersSame(s: Fs, t: Fs, i: nat) {
    && |t.files| == |s.files|
    && (forall j :: 0 <= j < |s.files| && j != i ==>
          t.files[j] == s.files[j] && (Readable(s, j) ==> Readable(t, j) && Content(t, j) == Content(s, j)))
  }

  /** writei's specification: inode `i` holds the overwritten bytes, nothing else changed. */
  ghost predicate WroteBytes(s: Fs, t: Fs, i: nat, off: nat, src: seq<byte>) {
    && Readable(s, i) && Readable(t, i) && off <= s.files[i].size
    && Content(t, i) == Overwrite(Content(s, i), off, src)
    && t.files[i].kind == s.files[i].kind && t.files[i].nlink == s.files[i].nlink
    && OthersSame(s, t, i)
  }

  lemma ResizeGrows(s: Fs, t: Fs, meta: nat, i: nat, size: nat)
    requires Good(s, meta) && Good(t, meta) && Grows(s, t, i)
    ensures OthersSame(s, Resize(t, i, size), i)
  {
    var u := Resize(t, i, size);
    forall j | 0 <= j < |s.files| && j != i
      ensures u.files[j] == s.files[j] && (Readable(s, j) ==> Readable(u, j) && Content(u, j) == Content(s, j))
    {
      if Readable(s, j) {
        OtherContent(s, t, meta, i, j);
        ResizeOther(t, i, size, j);
      }
    }
  }

  lemma ResizeOther(t: Fs, i: nat, size: nat, j: nat)
    requires i < |t.files| && j != i && Readable(t, j)
    ensures Readable(Resize(t, i, size), j) && Content(Resize(t, i, size), j) == Content(t, j)
  {
    var u := Resize(t, i, size);
    assert u.files[j] == t.files[j];
    forall k | 0 <= k < NB(u.files[j].size) ensures HasSlot(u, j, k) {
      assert HasSlot(t, j, k);
    }
    forall p | 0 <= p < t.files[j].size ensures Content(u, j)[p] == Content(t, j)[p] {
      assert HasSlot(t, j, p / BSIZE);
    }
  }

  lemma WriteFinished(s: Fs, t: Fs, meta: nat, i: nat, off: nat, src: seq<byte>)
    requires Good(s, meta) && Shaped(s.data, s.files) && i < |s.files| && off <= s.files[i].size
    requires Written(s, t, meta, i, off, src, |src|, NB(s.files[i].size))
    ensures var u := Resize(t, i, Max(s.files[i].size, off + |src|));
            Good(u, meta) && Shaped(u.data, u.files) && WroteBytes(s, u, i, off, src)
  {
    var u := Resize(t, i, Max(s.files[i].size, off + |src|));
    ShapeReadable(s, meta, i);
    WriteContent(s, t, meta, i, off, src);
    ResizeGrows(s, t, meta, i, Max(s.files[i].size, off + |src|));
    forall j | 0 <= j < |u.files| ensures GoodInode(u.files[j]) && Shape(u.data, u.files[j], NB(u.files[j].size)) {
      if j != i {
        OthersShaped(s, t, meta, i, j);
        assert u.files[j] == t.files[j];
      }
    }
  }

  lemma ShapedAt(s: Fs, i: nat)
    requires Shaped(s.data, s.files) && i < |s.files|
    ensures GoodInode(s.files[i]) && Shape(s.data, s.files[i], NB(s.files[i].size))
  {
  }

  lemma WrittenInside(s: Fs, t: Fs, meta: nat, i: nat, off: nat, src: seq<byte>, nb0: nat)
    requires Written(s, t, meta, i, off, src, |src|, nb0)
    ensures |t.files| == |s.files| && i < |s.files| && t.files[i].size == s.files[i].size
    ensures forall j :: 0 <= j < |s.files| && j != i ==> t.files[j] == s.files[j]
    ensures NB(off + |src|) <= nb0 ==> t.files == s.files
  {
  }

  const T_DEV := 3

  /** What readi and writei return: a count, -1, the device driver's business, or a panic below. */
  datatype IoResult = Done(n: nat) | Error | Device | Panicked

  lemma WriteCost(s: Fs, t: Fs, i: nat, cost: set<nat>, rounds: int, grown: int, iblock: nat, touched: set<nat>)
    requires i < |s.files| && GoodInode(s.files[i]) && i < |t.files| && GoodInode(t.files[i])
    requires CostOk(cost, s, t, i, rounds, grown) && touched <= cost + {iblock}
    ensures |touched| <= rounds + grown + 3
  {
    UnionSize(touched, cost, {iblock});
    UnionSize(cost, cost - IndirectSet(t, i), IndirectSet(t, i));
  }

  /** The last chunk-sized write of filewrite stays within the log reservation of one operation. */
  const MAXOPBLOCKS := 10
  const CHUNK := ((MAXOPBLOCKS - 1 - 1 - 2) / 2) * 512

  /** An unaligned first block is already allocated, so a chunk logs at most MAXOPBLOCKS blocks. */
  lemma ChunkFits(off: nat, n: nat, size: nat)
    requires off <= size && n <= CHUNK
    ensures Rounds(off, n) + Grown(off, n, NB(size)) + 3 <= MAXOPBLOCKS
  {
  }

  lemma MappedSame(s: Fs, t: Fs, i: nat, bn: nat)
    requires Mapped(s, t, i, bn) && SlotOf(s, i, bn) != 0
    ensures t == s
  {
  }

  lemma ContentBlock(s: Fs, i: nat, p: nat, m: nat)
    requires Readable(s, i) && p % BSIZE + m <= BSIZE && p + m <= s.files[i].size && 0 < m
    ensures HasSlot(s, i, p / BSIZE)
    ensures Content(s, i)[p..p + m] == s.data[SlotOf(s, i, p / BSIZE)][p % BSIZE..p % BSIZE + m]
  {
    assert HasSlot(s, i, p / BSIZE);
    var c, d := Content(s, i)[p..p + m], s.data[SlotOf(s, i, p / BSIZE)][p % BSIZE..p % BSIZE + m];
    forall q | 0 <= q < m ensures c[q] == d[q] {
      assert (p + q) / BSIZE == p / BSIZE && (p + q) % BSIZE == p % BSIZE + q;
    }
  }

  // ---------------------------------------------------------------- truncation

  /** Whether itrunc has cleared slot `k` once it is past `done` slots in freeing order (0..11, 12..139, indirect). */
  predicate ClearedBy(owner: Owner, i: nat, b: nat, done: nat) {
    b in owner && owner[b].inum == i && owner[b].slot < done
  }

  predicate BitsCleared(bits: seq<bool>, bits0: seq<bool>, owner: Owner, i: nat, done: nat) {
    && |bits| == |bits0|
    && (forall b :: 0 <= b < |bits| ==> (bits[b] <==> bits0[b] && !ClearedBy(owner, i, b, done)))
  }

  /** The free-map blocks that hold the bits of the slots freed so far. */
  ghost function MapsOf(owner: Owner, bmapstart: nat, i: nat, done: nat): set<nat> {
    set b | b in owner && ClearedBy(owner, i, b, done) :: BBlock(bmapstart, b)
  }

  lemma MapsNone(owner: Owner, bmapstart: nat, i: nat)
    ensures MapsOf(owner, bmapstart, i, 0) == {}
  {
  }

  /** Freeing the block of slot `k` adds its free-map block; an empty slot adds nothing. */
  lemma MapsStep(s: Fs, meta: nat, bmapstart: nat, i: nat, k: nat)
    requires Good(s, meta) && i < |s.files| && k <= INDIRECT
    ensures var b := SlotOf(s, i, k);
            MapsOf(s.owner, bmapstart, i, k + 1) == MapsOf(s.owner, bmapstart, i, k) + if b == 0 then {} else {BBlock(bmapstart, b)}
  {
    var b := SlotOf(s, i, k);
    SlotInRange(s, meta, i, k);
    forall c | c in s.owner && ClearedBy(s.owner, i, c, k + 1) && !ClearedBy(s.owner, i, c, k)
      ensures c == b != 0
    {
      assert SlotOf(s, i, s.owner[c].slot) == c;
    }
    assert b != 0 ==> ClearedBy(s.owner, i, b, k + 1);
  }

  lemma MapsNoIndirect(s: Fs, meta: nat, bmapstart: nat, i: nat)
    requires Good(s, meta) && i < |s.files| && s.files[i].addrs[NDIRECT] == 0
    ensures MapsOf(s.owner, bmapstart, i, INDIRECT + 1) == MapsOf(s.owner, bmapstart, i, NDIRECT)
  {
    forall b | b in s.owner && ClearedBy(s.owner, i, b, INDIRECT + 1)
      ensures ClearedBy(s.owner, i, b, NDIRECT)
    {
      assert SlotOf(s, i, s.owner[b].slot) == b;
    }
  }

  /** Truncation changes free-map bits and the inode, all in blocks it logs. */
  lemma TruncChanged(s: Fs, pl: Places, bits: seq<bool>, i: nat, dinodes: seq<Inode>, n: Inode, before: set<nat>)
    requires Good(s, pl.meta) && i < |dinodes| && BitsCleared(bits, s.bits, s.owner, i, INDIRECT + 1)
    ensures Changed(Image(s.bits, s.data, dinodes), Image(bits, s.data, dinodes[i := n]), pl, before,
                    before + MapsOf(s.owner, pl.bmapstart, i, INDIRECT + 1) + {IBlock(pl.inodestart, i)})
  {
    hide SlotsOwned, MapExact;
    forall x | x in MapsOf(s.owner, pl.bmapstart, i, INDIRECT + 1)
      ensures Loggable(x, pl.meta, |s.data|, pl.bmapstart)
    {
      var b :| b in s.owner && ClearedBy(s.owner, i, b, INDIRECT + 1) && BBlock(pl.bmapstart, b) == x;
      MapBlockInRange(b, pl.meta, |s.data|, pl.bmapstart);
    }
    forall b | 0 <= b < |bits| && bits[b] != s.bits[b]
      ensures BBlock(pl.bmapstart, b) in MapsOf(s.owner, pl.bmapstart, i, INDIRECT + 1)
    {
      assert ClearedBy(s.owner, i, b, INDIRECT + 1);
    }
  }

  function NoAddrs(): (r: seq<nat>)
    ensures |r| == NSLOT
  {
    seq(NSLOT, _ => 0)
  }

  /** The truncated file system: inode `i` is empty and the blocks it held are free. */
  ghost function Truncated(s: Fs, i: nat, bits: seq<bool>): Fs
    requires i < |s.files|
  {
    Fs(bits, s.data, s.files[i := s.files[i].(size := 0, addrs := NoAddrs())],
       map b | b in s.owner && s.owner[b].inum != i :: s.owner[b])
  }

  /** The block in a slot is still marked used until its turn comes, so bfree does not panic. */
  lemma StillUsed(s: Fs, meta: nat, i: nat, k: nat, bits: seq<bool>)
    requires Good(s, meta) && i < |s.files| && k <= INDIRECT && SlotOf(s, i, k) != 0
    requires BitsCleared(bits, s.bits, s.owner, i, k)
    ensures SlotOf(s, i, k) < |s.data| <= |bits| && bits[SlotOf(s, i, k)]
    ensures BitsCleared(bits[SlotOf(s, i, k) := false], s.bits, s.owner, i, k + 1)
  {
    var b := SlotOf(s, i, k);
    assert b in s.owner && s.owner[b] == Holder(i, k);
    forall c | 0 <= c < |bits| && ClearedBy(s.owner, i, c, k + 1) && !ClearedBy(s.owner, i, c, k)
      ensures c == b
    {
      assert SlotOf(s, i, s.owner[c].slot) == c;
    }
  }

  /** After every round of itrunc's first loop each block still has one owner. */
  lemma FreedDirect(s: Fs, meta: nat, i: nat, k: nat)
    requires Good(s, meta) && i < |s.files| && GoodInode(s.files[i]) && k < NDIRECT && s.files[i].addrs[k] != 0
    ensures var b := s.files[i].addrs[k];
            b < |s.bits| && Good(Fs(s.bits[b := false], s.data, SetAddr(s.files, i, k, 0), s.owner - {b}), meta)
  {
    hide SlotsOwned, OwnersHeld;
    OneDropped(s, meta, i, k);
    EmptySlot(s.bits, s.data, s.files, s.owner, meta, s.data, SetAddr(s.files, i, k, 0), i, k, s.files[i].addrs[k]);
  }

  lemma OneDropped(s: Fs, meta: nat, i: nat, k: nat)
    requires Good(s, meta) && i < |s.files| && GoodInode(s.files[i]) && k < NDIRECT
    ensures OneSlot(s.data, s.files, s.data, SetAddr(s.files, i, k, 0), i, k, 0)
  {
  }

  lemma EmptySlotSkipped(s: Fs, meta: nat, i: nat, k: nat, bits: seq<bool>)
    requires Good(s, meta) && i < |s.files| && k <= INDIRECT && SlotOf(s, i, k) == 0
    requires BitsCleared(bits, s.bits, s.owner, i, k)
    ensures BitsCleared(bits, s.bits, s.owner, i, k + 1)
  {
    forall b | 0 <= b < |bits| && ClearedBy(s.owner, i, b, k + 1)
      ensures ClearedBy(s.owner, i, b, k)
    {
      assert SlotOf(s, i, s.owner[b].slot) == b;
    }
  }

  lemma TruncatedGood(s: Fs, meta: nat, i: nat, bits: seq<bool>)
    requires Good(s, meta) && i < |s.files| && BitsCleared(bits, s.bits, s.owner, i, INDIRECT + 1)
    ensures Good(Truncated(s, i, bits), meta)
    ensures Shape(s.data, Truncated(s, i, bits).files[i], 0)
  {
    var t := Truncated(s, i, bits);
    assert forall j :: 0 <= j < |s.files| && j != i ==> t.files[j] == s.files[j];
    assert forall k :: 0 <= k <= INDIRECT ==> Ref(t.data, t.files[i], k) == 0;
    forall b | b in t.owner
      ensures Ref(t.data, t.files[t.owner[b].inum], t.owner[b].slot) == b
    {
    }
  }

  /** Inode `i` with its first `k` slots cleared. */
  function DropSlots(files: seq<Inode>, i: nat, k: nat): (r: seq<Inode>)
    requires i < |files| && GoodInode(files[i])
    ensures |r| == |files| && GoodInode(r[i])
  {
    files[i := files[i].(addrs := seq(NSLOT, l requires 0 <= l < NSLOT => if l < k then 0 else files[i].addrs[l]))]
  }

  lemma DropNone(files: seq<Inode>, i: nat)
    requires i < |files| && GoodInode(files[i])
    ensures DropSlots(files, i, 0) == files
  {
    assert DropSlots(files, i, 0)[i].addrs == files[i].addrs;
  }

  lemma DropOne(files: seq<Inode>, i: nat, k: nat)
    requires i < |files| && GoodInode(files[i]) && k < NSLOT
    ensures var r := DropSlots(files, i, k);
            && r[i].addrs[k] == files[i].addrs[k]
            && DropSlots(files, i, k + 1) == SetAddr(r, i, k, 0)
            && (files[i].addrs[k] == 0 ==> DropSlots(files, i, k + 1) == r)
  {
    var r := DropSlots(files, i, k);
    assert DropSlots(files, i, k + 1)[i].addrs == r[i].addrs[k := 0];
    if files[i].addrs[k] == 0 {
      assert r[i].addrs[k := 0] == r[i].addrs;
    }
  }

  lemma DropSlotsAt(files: seq<Inode>, i: nat)
    requires i < |files| && GoodInode(files[i])
    ensures DropSlots(files, i, NDIRECT)[i].addrs[NDIRECT] == files[i].addrs[NDIRECT]
  {
  }

  lemma DroppedAll(files: seq<Inode>, i: nat)
    requires i < |files| && GoodInode(files[i])
    ensures var r := DropSlots(files, i, NDIRECT);
            && SetAddr(r, i, NDIRECT, 0)[i].addrs == NoAddrs()
            && (files[i].addrs[NDIRECT] == 0 ==> r[i].addrs == NoAddrs())
  {
  }

  lemma NothingCleared(s: Fs, i: nat)
    ensures BitsCleared(s.bits, s.bits, s.owner, i, 0)
  {
  }

  lemma NoIndirect(s: Fs, meta: nat, i: nat, bits: seq<bool>)
    requires Good(s, meta) && i < |s.files| && s.files[i].addrs[NDIRECT] == 0
    requires BitsCleared(bits, s.bits, s.owner, i, NDIRECT)
    ensures BitsCleared(bits, s.bits, s.owner, i, INDIRECT + 1)
  {
    forall b | 0 <= b < |bits| && ClearedBy(s.owner, i, b, INDIRECT + 1)
      ensures ClearedBy(s.owner, i, b, NDIRECT)
    {
      assert SlotOf(s, i, s.owner[b].slot) == b;
    }
  }

  /** The bits that itrunc clears are those of the blocks that the inode holds. */
  lemma FreedExactly(s: Fs, meta: nat, i: nat, bits: seq<bool>)
    requires Good(s, meta) && i < |s.files| && BitsCleared(bits, s.bits, s.owner, i, INDIRECT + 1)
    ensures |bits| == |s.bits|
    ensures forall b :: 0 <= b < |bits| ==> (bits[b] <==> s.bits[b] && !(exists k :: HeldBy(s, b, i, k)))
  {
    forall b | 0 <= b < |bits|
      ensures bits[b] <==> s.bits[b] && !(exists k :: HeldBy(s, b, i, k))
    {
      HeldByExactly(s, meta, i, b);
    }
  }

  lemma HeldByExactly(s: Fs, meta: nat, i: nat, b: nat)
    requires Good(s, meta) && i < |s.files|
    ensures ClearedBy(s.owner, i, b, INDIRECT + 1) <==> exists k :: HeldBy(s, b, i, k)
  {
    if ClearedBy(s.owner, i, b, INDIRECT + 1) {
      assert HeldBy(s, b, i, s.owner[b].slot);
    }
    if exists k :: HeldBy(s, b, i, k) {
      var k :| HeldBy(s, b, i, k);
      SlotInRange(s, meta, i, k);
    }
  }

  lemma TruncatedShaped(s: Fs, meta: nat, i: nat, bits: seq<bool>)
    requires Good(s, meta) && i < |s.files| && BitsCleared(bits, s.bits, s.owner, i, INDIRECT + 1)
    requires Shaped(s.data, s.files)
    ensures Shaped(s.data, Truncated(s, i, bits).files)
    ensures OthersSame(s, Truncated(s, i, bits), i)
  {
    var t := Truncated(s, i, bits);
    TruncatedGood(s, meta, i, bits);
    forall j | 0 <= j < |s.files| && j != i
      ensures t.files[j] == s.files[j] && (Readable(s, j) ==> Readable(t, j) && Content(t, j) == Content(s, j))
    {
      if Readable(s, j) {
        SameInodeSameContent(s, t, j);
      }
    }
  }

  lemma SameInodeSameContent(s: Fs, t: Fs, j: nat)
    requires Readable(s, j) && j < |t.files| && t.files[j] == s.files[j] && t.data == s.data
    ensures Readable(t, j) && Content(t, j) == Content(s, j)
  {
    forall k | 0 <= k < NB(t.files[j].size) ensures HasSlot(t, j, k) {
      assert HasSlot(s, j, k);
    }
    forall p | 0 <= p < t.files[j].size ensures Content(t, j)[p] == Content(s, j)[p] {
      assert HasSlot(s, j, p / BSIZE);
    }
  }

  /** Two writes, the second where the first ended, are one write of the joined bytes. */
  lemma WritesCompose(s: Fs, t: Fs, u: Fs, i: nat, off: nat, a: seq<byte>, b: seq<byte>)
    requires WroteBytes(s, t, i, off, a) && WroteBytes(t, u, i, off + |a|, b)
    ensures WroteBytes(s, u, i, off, a + b)
  {
    OverwriteTwice(Content(s, i), off, a, b);
  }

  lemma AfterChunk(s: Fs, t: Fs, u: Fs, i: nat, off: nat, src: seq<byte>, w: nat, n: nat)
    requires w + n <= |src|
    requires if w == 0 then t == s else WroteBytes(s, t, i, off, src[..w])
    requires WroteBytes(t, u, i, off + w, src[w..w + n])
    ensures WroteBytes(s, u, i, off, src[..w + n])
    ensures i < |s.files| && off <= s.files[i].size
    ensures i < |u.files| && u.files[i].kind == s.files[i].kind && off + w + n <= u.files[i].size
  {
    hide WroteBytes;
    assert src[..w] + src[w..w + n] == src[..w + n];
    if w == 0 {
      assert src[w..w + n] == src[..w + n];
    } else {
      WritesCompose(s, t, u, i, off, src[..w], src[w..w + n]);
    }
    WroteFacts(s, u, i, off, src[..w + n]);
  }

  lemma WroteFacts(s: Fs, t: Fs, i: nat, off: nat, src: seq<byte>)
    requires WroteBytes(s, t, i, off, src)
    ensures i < |s.files| && off <= s.files[i].size
    ensures i < |t.files| && t.files[i].kind == s.files[i].kind && off + |src| <= t.files[i].size
  {
    assert |Content(t, i)| == t.files[i].size;
  }

  /** What filewrite returns: n, -1 after some chunks, the device's business, or never (a panic). */
  datatype WriteOutcome = All | Failed(written: nat) | DeviceFile | Halted

  /** The fields of struct file that filewrite uses. */
  class OpenFile {
    const inum: nat
    var off: nat

    constructor (inum: nat)
      ensures this.inum == inum && off == 0
    {
      this.inum := inum;
      off := 0;
    }
  }

  class FileSystem {
    /** Number of metadata blocks (boot, super, log, inode and free-map blocks). */
    const meta: nat
    const bmapstart: nat
    const inodestart: nat
    /** The free map, one bit per block. */
    var bits: seq<bool>
    /** Block contents as bread yields them. */
    var data: seq<Block>
    /** In-memory inodes by number. */
    var files: seq<Inode>
    /** Inodes as stored in the inode blocks. */
    var dinodes: seq<Inode>
    /** Which slot holds which block. */
    ghost var owner: Owner
    /** Blocks handed to log_write since the current begin_op. */
    ghost var touched: set<nat>

    ghost function S(): Fs
      reads this
    {
      Fs(bits, data, files, owner)
    }

    ghost function Im(): Image
      reads this
    {
      Image(bits, data, dinodes)
    }

    ghost function Where(): Places {
      Places(inodestart, bmapstart, meta)
    }

    /** A mounted file system whose image satisfies the invariant (what mkfs is taken to build). */
    constructor (meta: nat, bmapstart: nat, inodestart: nat, bits: seq<bool>, data: seq<Block>, files: seq<Inode>,
                 ghost owner: Owner)
      requires Good(Fs(bits, data, files, owner), meta) && Shaped(data, files)
      ensures Inv() && S() == Fs(bits, data, files, owner) && touched == {}
      ensures this.meta == meta && this.bmapstart == bmapstart && this.inodestart == inodestart
    {
      this.meta := meta;
      this.bmapstart := bmapstart;
      this.inodestart := inodestart;
      this.bits := bits;
      this.data := data;
      this.files := files;
      this.dinodes := files;
      this.owner := owner;
      this.touched := {};
    }

    /** Find the first free block, mark it used and zero it. */
    method Balloc() returns (ok: bool, r: nat)
      requires |bits| >= |data|
      modifies this`bits, this`data, this`touched
      ensures ok ==> r < |old(data)| && !old(bits)[r] && (forall c :: 0 <= c < r ==> old(bits)[c])
      ensures ok ==> bits == old(bits)[r := true] && data == old(data)[r := Zero()]
      ensures ok ==> touched == old(touched) + {BBlock(bmapstart, r), r}
      ensures !ok ==> Full(bits, |data|) && unchanged(this)
    {
      var b := 0;
      while b < |data|
        invariant 0 <= b && unchanged(this)
        invariant forall c :: 0 <= c < b && c < |data| ==> bits[c]
        decreases |data| - b
      {
        var bi := 0;
        while bi < BPB && b + bi < |data|
          invariant 0 <= bi <= BPB && unchanged(this)
          invariant b + bi <= |data| && forall c :: 0 <= c < b + bi ==> bits[c]
        {
          if !bits[b + bi] {
            bits := bits[b + bi := true];
            data := data[b + bi := Zero()];
            touched := touched + {BBlock(bmapstart, b + bi), b + bi};
            return true, b + bi;
          }
          bi := bi + 1;
        }
        b := b + BPB;
      }
      return false, 0;
    }

    /** Clear a block's bit; "freeing free block" is the panic. */
    method Bfree(b: nat) returns (panicked: bool)
      requires b < |bits|
      modifies this`bits, this`touched
      ensures panicked <==> !old(bits)[b]
      ensures panicked ==> unchanged(this)
      ensures !panicked ==> bits == old(bits)[b := false] && touched == old(touched) + {BBlock(bmapstart, b)}
    {
      if !bits[b] {
        return true;
      }
      bits := bits[b := false];
      touched := touched + {BBlock(bmapstart, b)};
      return false;
    }

    /** Give inode `i` a block in inode slot `k` (a direct slot, or NDIRECT for the indirect block). */
    method FillInode(i: nat, k: nat) returns (ok: bool, b: nat)
      requires Good(S(), meta) && i < |files| && k < NSLOT && files[i].addrs[k] == 0
      modifies this`bits, this`data, this`files, this`owner, this`touched
      ensures !ok ==> Full(bits, |data|) && unchanged(this)
      ensures ok ==> Free(old(S()), b) && S() == AddDirect(old(S()), i, k, b) && Good(S(), meta)
      ensures ok ==> touched == old(touched) + {BBlock(bmapstart, b), b}
      ensures ok ==> Logged(old(S()), S(), meta, bmapstart, old(touched), touched)
    {
      ghost var s := S();
      ok, b := Balloc();
      if ok {
        AddDirectGood(s, meta, i, k, b);
        AddDirectLogged(s, meta, bmapstart, i, k, b, old(touched));
        files := SetAddr(files, i, k, b);
        owner := owner[b := Holder(i, if k == NDIRECT then INDIRECT else k)];
      }
    }

    /** Give inode `i` a block in entry `j` of its indirect block. */
    method FillEntry(i: nat, j: nat) returns (ok: bool, b: nat)
      requires Good(S(), meta) && i < |files| && j < NINDIRECT
      requires files[i].addrs[NDIRECT] != 0 && SlotOf(S(), i, NDIRECT + j) == 0
      modifies this`bits, this`data, this`owner, this`touched
      ensures !ok ==> Full(bits, |data|) && unchanged(this)
      ensures Good(S(), meta)
      ensures ok ==> Mapped(old(S()), S(), i, NDIRECT + j) && b == SlotOf(S(), i, NDIRECT + j)
      ensures ok ==> touched == old(touched) + {BBlock(bmapstart, b), b, files[i].addrs[NDIRECT]}
      ensures ok ==> Logged(old(S()), S(), meta, bmapstart, old(touched), touched)
    {
      hide Logged, Mapped, Full;
      ghost var s := S();
      var ind := files[i].addrs[NDIRECT];
      SlotInRange(s, meta, i, INDIRECT);
      ok, b := Balloc();
      if ok {
        AddIndirectMaps(s, meta, i, j, b);
        AddIndirectLogged(s, meta, bmapstart, i, j, b, old(touched));
        FreeIsUnowned(s, meta, b);
        hide Good, PutWord;
        data := data[ind := PutWord(data[ind], j, b)];
        touched := touched + {ind};
        owner := owner[b := Holder(i, NDIRECT + j)];
        assert S() == AddIndirect(s, i, j, b);
      }
    }

    /** Return the block in slot `bn` of inode `i`, allocating it (and the indirect block) if there is none. */
    method Bmap(i: nat, bn: nat) returns (r: MapResult)
      requires Good(S(), meta) && i < |files|
      modifies this`bits, this`data, this`files, this`owner, this`touched
      ensures Good(S(), meta) && |files| == |old(files)|
      ensures r.OutOfRange? <==> bn >= 140
      ensures r.OutOfRange? ==> unchanged(this)
      ensures r.OutOfBlocks? ==> Full(bits, |data|) && SlotOf(old(S()), i, bn) == 0
      ensures r.Addr? ==> Mapped(old(S()), S(), i, bn) && r.b == SlotOf(S(), i, bn)
      ensures r.Addr? ==> touched == old(touched) + MapCost(bmapstart, i, bn, old(S()), S())
      ensures r.Addr? ==> Logged(old(S()), S(), meta, bmapstart, old(touched), touched)
    {
      ghost var s := S();
      if bn < NDIRECT {
        if files[i].addrs[bn] != 0 {
          LoggedNothing(s, meta, bmapstart, touched);
          return Addr(files[i].addrs[bn]);
        }
        var ok, b := FillInode(i, bn);
        if !ok {
          return OutOfBlocks;
        }
        AddDirectMaps(s, meta, i, bn, b);
        return Addr(b);
      }
      if bn < MAXFILE {
        r := BmapIndirect(i, bn);
        return;
      }
      return OutOfRange;
    }

    /** bmap past the direct slots, once the indirect block exists. */
    method BmapEntry(i: nat, bn: nat) returns (r: MapResult)
      requires Good(S(), meta) && i < |files| && NDIRECT <= bn < MAXFILE && files[i].addrs[NDIRECT] != 0
      modifies this`bits, this`data, this`owner, this`touched
      ensures Good(S(), meta) && !r.OutOfRange?
      ensures r.OutOfBlocks? ==> Full(bits, |data|) && SlotOf(old(S()), i, bn) == 0
      ensures r.Addr? ==> Mapped(old(S()), S(), i, bn) && r.b == SlotOf(S(), i, bn)
      ensures r.Addr? ==> touched == old(touched) + MapCost(bmapstart, i, bn, old(S()), S())
      ensures r.Addr? ==> Logged(old(S()), S(), meta, bmapstart, old(touched), touched)
    {
      hide Logged, Full;
      SlotInRange(S(), meta, i, INDIRECT);
      var a := GetWord(data[files[i].addrs[NDIRECT]], bn - NDIRECT);
      if a != 0 {
        LoggedNothing(S(), meta, bmapstart, touched);
        return Addr(a);
      }
      var ok, b := FillEntry(i, bn - NDIRECT);
      if !ok {
        return OutOfBlocks;
      }
      return Addr(b);
    }

    method BmapIndirect(i: nat, bn: nat) returns (r: MapResult)
      requires Good(S(), meta) && i < |files| && NDIRECT <= bn < MAXFILE
      modifies this`bits, this`data, this`files, this`owner, this`touched
      ensures Good(S(), meta) && |files| == |old(files)| && !r.OutOfRange?
      ensures r.OutOfBlocks? ==> Full(bits, |data|) && SlotOf(old(S()), i, bn) == 0
      ensures r.Addr? ==> Mapped(old(S()), S(), i, bn) && r.b == SlotOf(S(), i, bn)
      ensures r.Addr? ==> touched == old(touched) + MapCost(bmapstart, i, bn, old(S()), S())
      ensures r.Addr? ==> Logged(old(S()), S(), meta, bmapstart, old(touched), touched)
    {
      hide Mapped, Full, Logged, MapCost, AddDirect;
      if files[i].addrs[NDIRECT] != 0 {
        r := BmapEntry(i, bn);
        return;
      }
      ghost var s := S();
      var ok, ind := FillInode(i, NDIRECT);
      if !ok {
        return OutOfBlocks;
      }
      ghost var t, mid := S(), touched;
      FreshIndirect(s, meta, i, ind, bn);
      r := BmapEntry(i, bn);
      if r.Addr? {
        LoggedThen(s, t, S(), meta, bmapstart, old(touched), mid, touched);
        LinkThenMap(s, t, S(), meta, i, bn, ind);
        LinkCost(s, t, S(), meta, bmapstart, i, bn, ind);
      }
    }

    /** One round of writei: map slot `bn` and overwrite part of its block. */
    method WriteRound(i: nat, bn: nat, o: nat, chunk: seq<byte>) returns (ok: bool, ghost u: Fs)
      requires Good(S(), meta) && i < |files| && bn < MAXFILE && o + |chunk| <= BSIZE
      modifies this`bits, this`data, this`files, this`owner, this`touched
      ensures !ok ==> Full(bits, |data|)
      ensures ok ==> Good(u, meta) && Mapped(old(S()), u, i, bn) && HasSlot(u, i, bn)
      ensures ok ==> GoodInode(old(files)[i])
      ensures ok ==> S() == PutBytes(u, SlotOf(u, i, bn), o, chunk)
      ensures ok ==> touched == old(touched) + MapCost(bmapstart, i, bn, old(S()), u) + {SlotOf(u, i, bn)}
      ensures ok ==> Logged(old(S()), S(), meta, bmapstart, old(touched), touched)
    {
      hide Logged;
      var r := Bmap(i, bn);
      u := S();
      ok := r.Addr?;
      if ok {
        SlotInRange(u, meta, i, bn);
        PutBytesLogged(u, meta, bmapstart, i, bn, o, chunk, touched);
        LoggedThen(old(S()), u, PutBytes(u, r.b, o, chunk), meta, bmapstart, old(touched), touched, touched + {r.b});
        data := data[r.b := Splice(data[r.b], o, chunk)];
        touched := touched + {r.b};
      }
    }

    /** One iteration of writei's loop, which has already written `w` bytes. */
    method WriteStep(i: nat, src: seq<byte>, off: nat, w: nat, ghost s: Fs, ghost nb0: nat, ghost cost: set<nat>)
      returns (ok: bool, m: nat, ghost cost': set<nat>)
      requires i < |files| && i < |s.files| && GoodInode(s.files[i]) && GoodInode(S().files[i])
      requires Good(S(), meta) && Good(s, meta) && w < |src| && off + |src| <= MAXFILE * BSIZE && NB(off) <= nb0
      requires w == 0 || (off + w) % BSIZE == 0
      requires Written(s, S(), meta, i, off, src, w, nb0)
      requires CostOk(cost, s, S(), i, Rounds(off, w), Grown(off, w, nb0))
      modifies this`bits, this`data, this`files, this`owner, this`touched
      ensures !ok ==> Full(bits, |data|)
      ensures ok ==> 0 < m && w + m <= |src| && (w + m == |src| || (off + w + m) % BSIZE == 0)
      ensures ok ==> Good(S(), meta) && i < |files| && i < |S().files| && GoodInode(S().files[i])
      ensures ok ==> Written(s, S(), meta, i, off, src, w + m, nb0)
      ensures ok ==> cost <= cost' && touched <= old(touched) + cost'
      ensures ok ==> CostOk(cost', s, S(), i, Rounds(off, w + m), Grown(off, w + m, nb0))
      ensures ok ==> Logged(old(S()), S(), meta, bmapstart, old(touched), touched)
    {
      hide Good, Written, Mapped, CostOk, MapCost, PutBytes, Full, Logged;
      ghost var t := S();
      var bn, o := (off + w) / BSIZE, (off + w) % BSIZE;
      m := RoundSize(off, |src|, w);
      RoundFits(off, |src|, w);
      RoundGrows(s, t, meta, i, off, src, w, nb0);
      IndirectKept(s, t, meta, i, off, src, w, nb0);
      ghost var u;
      ok, u := WriteRound(i, bn, o, src[w..w + m]);
      cost' := cost;
      if ok {
        CostRound(s, t, u, meta, i, bn, bmapstart, cost, off, |src|, w, m, nb0);
        cost' := cost + MapCost(bmapstart, i, bn, t, u) + {SlotOf(u, i, bn)};
        WrittenStep(s, t, u, meta, i, off, src, w, nb0, bn, o, m);
        CostAfterPut(cost', s, u, i, SlotOf(u, i, bn), o, src[w..w + m], Rounds(off, w + m), Grown(off, w + m, nb0));
        WrittenGood(s, S(), meta, i, off, src, w + m, nb0);
      }
    }

    /** writei's loop: all of `src` goes to offset `off`, which is not past the end of the file. */
    method WriteLoop(i: nat, src: seq<byte>, off: nat, ghost nb0: nat) returns (ok: bool, ghost cost: set<nat>)
      requires Good(S(), meta) && i < |files| && GoodInode(files[i]) && Shape(data, files[i], nb0) && NB(off) <= nb0
      requires off + |src| <= MAXFILE * BSIZE
      modifies this`bits, this`data, this`files, this`owner, this`touched
      ensures !ok ==> Full(bits, |data|)
      ensures ok ==> Good(S(), meta) && i < |files| && GoodInode(files[i])
      ensures ok ==> Written(old(S()), S(), meta, i, off, src, |src|, nb0)
      ensures ok ==> touched <= old(touched) + cost
      ensures ok ==> CostOk(cost, old(S()), S(), i, Rounds(off, |src|), Grown(off, |src|, nb0))
      ensures ok ==> Logged(old(S()), S(), meta, bmapstart, old(touched), touched)
    {
      hide Good, Written, Mapped, CostOk, Full, Shape, Logged, Rounds, Grown, NB;
      ghost var s := S();
      LoggedNothing(s, meta, bmapstart, touched);
      cost := {};
      WrittenNothing(s, meta, i, off, src, nb0);
      NothingCosts(s, i, off, nb0);
      var tot := 0;
      while tot < |src|
        invariant 0 <= tot <= |src| && (tot == 0 || tot == |src| || (off + tot) % BSIZE == 0)
        invariant Good(S(), meta) && i < |files| && GoodInode(files[i])
        invariant Written(s, S(), meta, i, off, src, tot, nb0)
        invariant touched <= old(touched) + cost
        invariant CostOk(cost, s, S(), i, Rounds(off, tot), Grown(off, tot, nb0))
        invariant Logged(old(S()), S(), meta, bmapstart, old(touched), touched)
      {
        ghost var t, mid := S(), touched;
        var m;
        ok, m, cost := WriteStep(i, src, off, tot, s, nb0, cost);
        if !ok {
          return;
        }
        LoggedThen(s, t, S(), meta, bmapstart, old(touched), mid, touched);
        tot := tot + m;
      }
      ok := true;
    }

    /** Ownership, shapes and write-through between file system operations. */
    ghost predicate Inv()
      reads this
    {
      Good(S(), meta) && Shaped(data, files) && dinodes == files
    }

    /** Store the in-memory inode on disk. */
    method Iupdate(i: nat)
      requires i < |files| && |dinodes| == |files|
      modifies this`dinodes, this`touched
      ensures dinodes == old(dinodes)[i := files[i]] && touched == old(touched) + {IBlock(inodestart, i)}
    {
      dinodes := dinodes[i := files[i]];
      touched := touched + {IBlock(inodestart, i)};
    }

    /** Write `src` at offset `off` of inode `i`. */
    method Writei(i: nat, src: seq<byte>, off: nat) returns (r: IoResult)
      requires Inv() && i < |files| && off < TWO32 && |src| < TWO32
      modifies this`bits, this`data, this`files, this`owner, this`touched, this`dinodes
      ensures r.Device? <==> old(files)[i].kind == T_DEV
      ensures r.Error? <==> old(files)[i].kind != T_DEV && (off > old(files)[i].size || off + |src| > 140 * 512)
      ensures r.Device? || r.Error? ==> unchanged(this)
      ensures r.Panicked? ==> Full(bits, |data|)
      ensures r.Done? ==> r.n == |src| && Inv() && WroteBytes(old(S()), S(), i, off, src)
      ensures r.Done? ==> |touched - old(touched)| <= Rounds(off, |src|) + Grown(off, |src|, NB(old(files)[i].size)) + 3
      ensures r.Done? ==> Changed(old(Im()), Im(), Where(), old(touched), touched)
    {
      if files[i].kind == T_DEV {
        return Device;
      }
      if off > files[i].size || (off + |src|) % TWO32 < off {
        return Error;
      }
      if (off + |src|) % TWO32 > MAXFILE * BSIZE {
        return Error;
      }
      r := WriteChecked(i, src, off);
    }

    /** writei past its argument checks. */
    method WriteChecked(i: nat, src: seq<byte>, off: nat) returns (r: IoResult)
      requires Inv() && i < |files| && off <= files[i].size && off + |src| <= MAXFILE * BSIZE
      modifies this`bits, this`data, this`files, this`owner, this`touched, this`dinodes
      ensures r == Done(|src|) || r == Panicked
      ensures r.Panicked? ==> Full(bits, |data|)
      ensures r.Done? ==> Inv() && WroteBytes(old(S()), S(), i, off, src)
      ensures r.Done? ==> |touched - old(touched)| <= Rounds(off, |src|) + Grown(off, |src|, NB(old(files)[i].size)) + 3
      ensures r.Done? ==> Changed(old(Im()), Im(), Where(), old(touched), touched)
    {
      hide Good, CostOk, Shaped, WroteBytes, Written, Shape, Logged, Changed;
      ghost var s := S();
      var size := files[i].size;
      ghost var nb0 := NB(size);
      ShapedAt(s, i);
      var ok;
      ghost var cost;
      ok, cost := WriteLoop(i, src, off, nb0);
      if !ok {
        return Panicked;
      }
      ghost var t := S();
      WriteFinished(s, t, meta, i, off, src);
      WrittenInside(s, t, meta, i, off, src, nb0);
      ThenInode(s, t, Where(), dinodes, i, files[i].(size := off + |src|), old(touched), touched);
      NoInode(s, t, Where(), dinodes, old(touched), touched);
      if |src| > 0 && off + |src| > size {
        files := files[i := files[i].(size := off + |src|)];
        assert S() == Resize(t, i, Max(size, off + |src|));
        Iupdate(i);
        assert dinodes == files;
      } else {
        assert files == s.files;
        assert t == Resize(t, i, Max(size, off + |src|));
      }
      WriteCost(s, t, i, cost, Rounds(off, |src|), Grown(off, |src|, nb0), IBlock(inodestart, i), touched - old(touched));
      r := Done(|src|);
    }

    /** Read up to `n` bytes at offset `off` of inode `i`. */
    method Readi(i: nat, off: nat, n: nat) returns (r: IoResult, dst: seq<byte>)
      requires Inv() && i < |files| && off < TWO32 && n < TWO32
      modifies this`bits, this`data, this`files, this`owner, this`touched
      ensures unchanged(this)
      ensures r.Device? <==> files[i].kind == T_DEV
      ensures r.Error? <==> files[i].kind != T_DEV && (off > files[i].size || off + n >= TWO32)
      ensures !r.Panicked?
      ensures r.Done? ==> Readable(S(), i) && off <= files[i].size && r.n == |dst|
      ensures r.Done? ==> dst == Content(S(), i)[off..if off + n < files[i].size then off + n else files[i].size]
    {
      dst := [];
      if files[i].kind == T_DEV {
        return Device, dst;
      }
      if off > files[i].size || (off + n) % TWO32 < off {
        return Error, dst;
      }
      var n' := if off + n > files[i].size then files[i].size - off else n;
      ShapedAt(S(), i);
      ShapeReadable(S(), meta, i);
      dst := ReadLoop(i, off, n');
      r := Done(n');
    }

    /** One round of readi: m bytes of the block that holds byte p. */
    method ReadRound(i: nat, p: nat, m: nat) returns (chunk: seq<byte>)
      requires Good(S(), meta) && Readable(S(), i) && NB(files[i].size) <= MAXFILE
      requires p % BSIZE + m <= BSIZE && p + m <= files[i].size && 0 < m
      modifies this`bits, this`data, this`files, this`owner, this`touched
      ensures unchanged(this)
      ensures chunk == Content(S(), i)[p..p + m]
    {
      hide Good, Mapped, Readable;
      ContentBlock(S(), i, p, m);
      ghost var s, touched0 := S(), touched;
      var r := Bmap(i, p / BSIZE);
      MappedSame(s, S(), i, p / BSIZE);
      assert touched == touched0;
      chunk := data[r.b][p % BSIZE..p % BSIZE + m];
    }

    /** readi's loop over the blocks of an existing byte range. */
    method ReadLoop(i: nat, off: nat, n: nat) returns (dst: seq<byte>)
      requires Good(S(), meta) && Readable(S(), i) && off + n <= files[i].size && NB(files[i].size) <= MAXFILE
      modifies this`bits, this`data, this`files, this`owner, this`touched
      ensures unchanged(this)
      ensures dst == Content(S(), i)[off..off + n]
    {
      hide Good, Mapped, Readable, SlotOf;
      dst := [];
      var tot := 0;
      while tot < n
        invariant 0 <= tot <= n && unchanged(this)
        invariant Readable(S(), i) && dst == Content(S(), i)[off..off + tot]
      {
        var m := RoundSize(off, n, tot);
        var chunk := ReadRound(i, off + tot, m);
        dst := dst + chunk;
        tot := tot + m;
      }
    }

    /** itrunc's first loop: free the direct blocks and clear their slots. */
    method FreeDirect(i: nat, ghost s: Fs) returns (panicked: bool, ghost own: Owner)
      requires s == S() && Good(s, meta) && i < |files| && GoodInode(files[i])
      modifies this`bits, this`touched, this`files
      ensures !panicked && BitsCleared(bits, s.bits, s.owner, i, NDIRECT)
      ensures files == DropSlots(s.files, i, NDIRECT)
      ensures touched == old(touched) + MapsOf(s.owner, bmapstart, i, NDIRECT)
      ensures Good(Fs(bits, data, files, own), meta)
    {
      hide Good, BitsCleared, MapsOf;
      NothingCleared(s, i);
      MapsNone(s.owner, bmapstart, i);
      DropNone(files, i);
      panicked, own := false, s.owner;
      var k := 0;
      while k < NDIRECT
        invariant 0 <= k <= NDIRECT && !panicked && Good(Fs(bits, data, files, own), meta)
        invariant BitsCleared(bits, s.bits, s.owner, i, k)
        invariant files == DropSlots(s.files, i, k)
        invariant touched == old(touched) + MapsOf(s.owner, bmapstart, i, k)
      {
        DropOne(s.files, i, k);
        MapsStep(s, meta, bmapstart, i, k);
        assert files[i].addrs[k] == SlotOf(s, i, k);
        if files[i].addrs[k] != 0 {
          StillUsed(s, meta, i, k, bits);
          FreedDirect(Fs(bits, data, files, own), meta, i, k);
          own := own - {files[i].addrs[k]};
          panicked := Bfree(files[i].addrs[k]);
          files := SetAddr(files, i, k, 0);
        } else {
          EmptySlotSkipped(s, meta, i, k, bits);
        }
        k := k + 1;
      }
    }

    /** itrunc's second loop: free the blocks the indirect block lists. */
    method FreeEntries(i: nat, ghost s: Fs, ghost before: set<nat>) returns (panicked: bool)
      requires s == Fs(s.bits, data, s.files, owner) && Good(s, meta) && i < |s.files| == |files|
      requires GoodInode(s.files[i]) && GoodInode(files[i]) && 0 < files[i].addrs[NDIRECT] == s.files[i].addrs[NDIRECT] < |data|
      requires BitsCleared(bits, s.bits, s.owner, i, NDIRECT)
      requires touched == before + MapsOf(s.owner, bmapstart, i, NDIRECT)
      modifies this`bits, this`touched
      ensures !panicked && BitsCleared(bits, s.bits, s.owner, i, MAXFILE)
      ensures touched == before + MapsOf(s.owner, bmapstart, i, MAXFILE)
    {
      hide Good, BitsCleared, MapsOf;
      panicked := false;
      var j := 0;
      while j < NINDIRECT
        invariant 0 <= j <= NINDIRECT && !panicked
        invariant BitsCleared(bits, s.bits, s.owner, i, NDIRECT + j)
        invariant touched == before + MapsOf(s.owner, bmapstart, i, NDIRECT + j)
      {
        MapsStep(s, meta, bmapstart, i, NDIRECT + j);
        var b := GetWord(data[files[i].addrs[NDIRECT]], j);
        assert b == SlotOf(s, i, NDIRECT + j);
        if b != 0 {
          StillUsed(s, meta, i, NDIRECT + j, bits);
          panicked := Bfree(b);
        } else {
          EmptySlotSkipped(s, meta, i, NDIRECT + j, bits);
        }
        j := j + 1;
      }
    }

    /** Discard the contents of inode `i`: its blocks become free, and "freeing free block" does not occur. */
    method Itrunc(i: nat) returns (panicked: bool)
      requires Inv() && i < |files|
      modifies this`bits, this`files, this`owner, this`touched, this`dinodes
      ensures !panicked && Inv()
      ensures BitsCleared(bits, old(bits), old(owner), i, INDIRECT + 1)
      ensures S() == Truncated(old(S()), i, bits)
      ensures forall b :: 0 <= b < |bits| ==> (bits[b] <==> old(bits)[b] && !(exists k :: HeldBy(old(S()), b, i, k)))
      ensures files[i].size == 0 && files[i].addrs == [0, 0, 0, 0, 0, 0, 0, 0, 0, 0, 0, 0, 0]
      ensures files[i].kind == old(files)[i].kind && files[i].nlink == old(files)[i].nlink
      ensures OthersSame(old(S()), S(), i)
      ensures touched == old(touched) + MapsOf(old(owner), bmapstart, i, INDIRECT + 1) + {IBlock(inodestart, i)}
      ensures Changed(old(Im()), Im(), Where(), old(touched), touched)
    {
      hide Good, BitsCleared, Shaped, OthersSame, MapsOf, Changed;
      ghost var s := S();
      ShapedAt(s, i);
      ghost var own;
      panicked, own := FreeDirect(i, s);
      DropSlotsAt(s.files, i);
      if files[i].addrs[NDIRECT] != 0 {
        SlotInRange(s, meta, i, INDIRECT);
        panicked := FreeEntries(i, s, old(touched));
        MapsStep(s, meta, bmapstart, i, INDIRECT);
        StillUsed(s, meta, i, INDIRECT, bits);
        panicked := Bfree(files[i].addrs[NDIRECT]);
        files := SetAddr(files, i, NDIRECT, 0);
      } else {
        NoIndirect(s, meta, i, bits);
        MapsNoIndirect(s, meta, bmapstart, i);
      }
      files := files[i := files[i].(size := 0)];
      owner := map b | b in owner && owner[b].inum != i :: owner[b];
      Iupdate(i);
      DroppedAll(s.files, i);
      assert S() == Truncated(s, i, bits);
      TruncatedGood(s, meta, i, bits);
      TruncatedShaped(s, meta, i, bits);
      FreedExactly(s, meta, i, bits);
      TruncChanged(s, Where(), bits, i, old(dinodes), files[i], old(touched));
    }

    /** One transaction of filewrite: begin_op, writei of one chunk, end_op. */
    method WriteChunk(f: OpenFile, chunk: seq<byte>) returns (r: IoResult)
      requires Inv() && f.inum < |files| && f.off < TWO32 && |chunk| <= 3 * 512
      modifies this`bits, this`data, this`files, this`owner, this`touched, this`dinodes, f`off
      ensures r.Device? <==> old(files)[f.inum].kind == T_DEV
      ensures r.Error? <==>
              (old(files)[f.inum].kind != T_DEV
               && (old(f.off) > old(files)[f.inum].size || old(f.off) + |chunk| > 140 * 512))
      ensures r.Device? || r.Error? ==> S() == old(S()) && Inv() && f.off == old(f.off)
      ensures r.Panicked? ==> Full(bits, |data|)
      ensures r.Done? ==> r.n == |chunk| && Inv() && WroteBytes(old(S()), S(), f.inum, old(f.off), chunk)
      ensures r.Done? ==> f.off == old(f.off) + |chunk|
      ensures r.Done? || r.Error? ==> |touched| <= MAXOPBLOCKS
      ensures r.Done? ==> Changed(old(Im()), Im(), Where(), {}, touched)
    {
      hide Good, Shaped, WroteBytes, Changed;
      touched := {};
      if f.off <= files[f.inum].size {
        ChunkFits(f.off, |chunk|, files[f.inum].size);
      }
      r := Writei(f.inum, chunk, f.off);
      if r.Done? {
        assert touched - {} == touched;
        f.off := f.off + r.n;
      }
    }

    /** Write all of `src` at the file's offset, a few blocks per transaction. */
    method Filewrite(f: OpenFile, src: seq<byte>) returns (r: WriteOutcome, ghost txns: seq<set<nat>>)
      requires Inv() && f.inum < |files| && f.off < TWO32
      modifies this`bits, this`data, this`files, this`owner, this`touched, this`dinodes, f`off
      ensures src == [] ==> r == All && S() == old(S()) && f.off == old(f.off)
      ensures src != [] && old(files)[f.inum].kind == T_DEV ==> r == DeviceFile
      ensures src != [] && old(files)[f.inum].kind != T_DEV && r != Halted ==>
                (r == All <==> old(f.off) <= old(files)[f.inum].size && old(f.off) + |src| <= 140 * 512)
      ensures r == All && src != [] ==> WroteBytes(old(S()), S(), f.inum, old(f.off), src) && f.off == old(f.off) + |src|
      ensures r.Failed? ==> r.written < |src| && f.off == old(f.off) + r.written
      ensures r.Failed? && r.written > 0 ==> WroteBytes(old(S()), S(), f.inum, old(f.off), src[..r.written])
      ensures r.Failed? && r.written == 0 ==> S() == old(S())
      ensures r == Halted ==> Full(bits, |data|)
      ensures r != Halted ==> Inv()
      ensures forall k :: 0 <= k < |txns| ==> |txns[k]| <= 10
      ensures r == All ==> |src| <= |txns| * 1536 < |src| + 1536
    {
      hide Good, Shaped, WroteBytes, Full;
      ghost var s := S();
      txns := [];
      var i := 0;
      while i < |src|
        invariant 0 <= i <= |src| && Inv() && f.inum < |files| && f.off == old(f.off) + i < TWO32
        invariant i > 0 ==> files[f.inum].kind == s.files[f.inum].kind != T_DEV && f.off <= files[f.inum].size
        invariant i > 0 ==> old(f.off) <= s.files[f.inum].size && f.off <= MAXFILE * BSIZE
        invariant i == 0 ==> S() == s
        invariant i > 0 ==> WroteBytes(s, S(), f.inum, old(f.off), src[..i])
        invariant forall k :: 0 <= k < |txns| ==> |txns[k]| <= MAXOPBLOCKS
        invariant i == |txns| * 1536 || (i == |src| && |src| <= |txns| * 1536 < |src| + 1536)
      {
        var n1 := if |src| - i > CHUNK then CHUNK else |src| - i;
        ghost var t := S();
        var w := WriteChunk(f, src[i..i + n1]);
        match w {
          case Panicked => r := Halted; return;
          case Device => r := DeviceFile; return;
          case Error => r := Failed(i); return;
          case Done(_) =>
            txns := txns + [touched];
            AfterChunk(s, t, S(), f.inum, old(f.off), src, i, n1);
            i := i + n1;
        }
      }
      assert src[..|src|] == src;
      r := All;
    }
  }
}
