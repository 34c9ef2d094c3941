/**
 Files as byte sequences over the block map: what mapping one more block, writing inside a mapped
 block and truncating do to the bytes of one file and to everybody else's.
 */
module FsFile {
  import opened FsBlocks
  import opened FsOwner

  /** The file system as one value; `owner` records which slot holds which block. */
  datatype Fs = Fs(bits: seq<bool>, data: seq<Block>, files: seq<Inode>, owner: Owner)

  ghost predicate Good(s: Fs, meta: nat) {
    0 < meta && Owned(s.bits, s.data, s.files, s.owner, meta)
  }

  function SlotOf(s: Fs, i: nat, k: nat): nat
    requires i < |s.files| && GoodInode(s.files[i]) && k <= INDIRECT
  {
    Ref(s.data, s.files[i], k)
  }

  predicate SameButAddrs(files: seq<Inode>, files': seq<Inode>, i: nat) {
    && |files'| == |files| && i < |files|
    && (forall j :: 0 <= j < |files| && j != i ==> files'[j] == files[j])
    && files'[i].kind == files[i].kind && files'[i].nlink == files[i].nlink && files'[i].size == files[i].size
  }

  /** A free-map bit is set exactly for metadata and for blocks that sit in exactly one slot of exactly one inode. */
  lemma ExactlyOneHolder(s: Fs, meta: nat, b: nat)
    requires Good(s, meta) && b < |s.data|
    ensures s.bits[b] <==> b < meta || exists i, k :: HeldBy(s, b, i, k)
    ensures forall i, k, j, l :: HeldBy(s, b, i, k) && HeldBy(s, b, j, l) ==> i == j && k == l
  {
    if b in s.owner {
      assert HeldBy(s, b, s.owner[b].inum, s.owner[b].slot);
    }
  }

  predicate HeldBy(s: Fs, b: nat, i: nat, k: nat) {
    i < |s.files| && GoodInode(s.files[i]) && k <= INDIRECT && b != 0 && SlotOf(s, i, k) == b
  }

  /** Inode `i` may have gained blocks; every other inode and its blocks' contents are as before. */
  ghost predicate Grows(s: Fs, t: Fs, i: nat) {
    && |t.files| == |s.files| && |t.data| == |s.data| && i < |s.files|
    && SameButAddrs(s.files, t.files, i)
    && (forall b :: b in s.owner ==> b in t.owner && t.owner[b] == s.owner[b])
    && (forall b :: b in t.owner && b !in s.owner ==> t.owner[b].inum == i)
    && (forall b :: b in s.owner && s.owner[b].inum != i ==> b < |s.data| && t.data[b] == s.data[b])
  }

  lemma GrowsTrans(s: Fs, t: Fs, u: Fs, i: nat)
    requires Grows(s, t, i) && Grows(t, u, i)
    ensures Grows(s, u, i)
  {
  }

  /** bmap's effect: slot `bn` is filled; new blocks sit in slot `bn` and, for it, in the indirect slot. */
  ghost predicate Mapped(s: Fs, t: Fs, i: nat, bn: nat) {
    && Grows(s, t, i) && bn < MAXFILE && GoodInode(s.files[i]) && GoodInode(t.files[i])
    && (forall b :: b in s.owner && !(s.owner[b].inum == i && s.owner[b].slot == INDIRECT) ==> b < |s.data| && t.data[b] == s.data[b])
    && (forall b :: b in t.owner && b !in s.owner ==>
          t.owner[b].slot == bn || (t.owner[b].slot == INDIRECT && bn >= NDIRECT))
    && SlotOf(t, i, bn) != 0
    && (SlotOf(s, i, bn) != 0 ==> t == s)
    && (SlotOf(s, i, bn) == 0 ==> SlotOf(t, i, bn) < |t.data| && t.data[SlotOf(t, i, bn)] == Zero())
  }

  /** Slots filled before a growth step still hold the same block. */
  lemma SlotKept(s: Fs, t: Fs, i: nat, meta: nat, j: nat, k: nat)
    requires Good(s, meta) && Good(t, meta) && Grows(s, t, i) && j < |s.files| && k <= INDIRECT
    requires SlotOf(s, j, k) != 0 || j != i
    ensures SlotOf(t, j, k) == SlotOf(s, j, k)
  {
    if SlotOf(s, j, k) != 0 {
      assert SlotOf(s, j, k) in s.owner;
    }
  }

  lemma MappedShape(s: Fs, t: Fs, i: nat, bn: nat, nb: nat, meta: nat)
    requires Good(s, meta) && Good(t, meta) && Mapped(s, t, i, bn)
    requires Shape(s.data, s.files[i], nb) && bn <= nb
    ensures Shape(t.data, t.files[i], if bn == nb then nb + 1 else nb)
  {
    if SlotOf(s, i, bn) != 0 {
      assert bn < nb;
    } else {
      assert bn == nb;
      forall k | 0 <= k < MAXFILE ensures Ref(t.data, t.files[i], k) != 0 <==> k <= nb {
        if k < nb {
          SlotKept(s, t, i, meta, i, k);
        }
      }
      if nb > NDIRECT {
        SlotKept(s, t, i, meta, i, INDIRECT);
      }
    }
  }

  // ---------------------------------------------------------------- the three allocations of bmap

  predicate Free(s: Fs, b: nat) {
    b < |s.data| && b < |s.bits| && !s.bits[b]
  }

  /** A fresh zeroed block stored in inode slot `k` (NDIRECT is the indirect slot). */
  ghost function AddDirect(s: Fs, i: nat, k: nat, b: nat): Fs
    requires i < |s.files| && GoodInode(s.files[i]) && k < NSLOT && Free(s, b)
  {
    Fs(s.bits[b := true], s.data[b := Zero()], SetAddr(s.files, i, k, b),
       s.owner[b := Holder(i, if k == NDIRECT then INDIRECT else k)])
  }

  /** A fresh zeroed block stored in entry `j` of the indirect block. */
  ghost function AddIndirect(s: Fs, i: nat, j: nat, b: nat): Fs
    requires i < |s.files| && GoodInode(s.files[i]) && j < NINDIRECT && Free(s, b) && |s.data| < TWO32
    requires s.files[i].addrs[NDIRECT] < |s.data|
  {
    var ind := s.files[i].addrs[NDIRECT];
    Fs(s.bits[b := true], s.data[b := Zero()][ind := PutWord(s.data[ind], j, b)], s.files,
       s.owner[b := Holder(i, NDIRECT + j)])
  }

  lemma FreeIsUnowned(s: Fs, meta: nat, b: nat)
    requires Good(s, meta) && Free(s, b)
    ensures b !in s.owner && meta <= b
  {
  }

  lemma AddDirectGood(s: Fs, meta: nat, i: nat, k: nat, b: nat)
    requires Good(s, meta) && i < |s.files| && k < NSLOT && Free(s, b) && s.files[i].addrs[k] == 0
    ensures var t := AddDirect(s, i, k, b);
            && Good(t, meta) && Grows(s, t, i)
            && OneSlot(s.data, s.files, t.data, t.files, i, if k == NDIRECT then INDIRECT else k, b)
  {
    FreeIsUnowned(s, meta, b);
    var k' := if k == NDIRECT then INDIRECT else k;
    FillDirect(s.bits, s.data, s.files, s.owner, meta, i, k, b);
    FillSlot(s.bits, s.data, s.files, s.owner, meta, s.data[b := Zero()], SetAddr(s.files, i, k, b), i, k', b);
  }

  lemma AddDirectMaps(s: Fs, meta: nat, i: nat, bn: nat, b: nat)
    requires Good(s, meta) && i < |s.files| && bn < NDIRECT && Free(s, b) && s.files[i].addrs[bn] == 0
    ensures Good(AddDirect(s, i, bn, b), meta) && Mapped(s, AddDirect(s, i, bn, b), i, bn)
    ensures SlotOf(AddDirect(s, i, bn, b), i, bn) == b
  {
    FreeIsUnowned(s, meta, b);
    AddDirectGood(s, meta, i, bn, b);
  }

  lemma AddIndirectGood(s: Fs, meta: nat, i: nat, j: nat, b: nat)
    requires Good(s, meta) && i < |s.files| && j < NINDIRECT && Free(s, b)
    requires s.files[i].addrs[NDIRECT] != 0 && SlotOf(s, i, NDIRECT + j) == 0
    ensures var ind := s.files[i].addrs[NDIRECT];
            && ind < |s.data| && ind != b && b != 0 && b !in s.owner && GoodInode(s.files[i])
            && ind in s.owner && s.owner[ind] == Holder(i, INDIRECT)
            && (forall c :: c in s.owner ==> c < |s.data|)
    ensures Good(AddIndirect(s, i, j, b), meta) && SlotOf(AddIndirect(s, i, j, b), i, NDIRECT + j) == b
  {
    FreeIsUnowned(s, meta, b);
    FillIndirect(s.bits, s.data, s.files, s.owner, meta, i, j, b);
    var t := AddIndirect(s, i, j, b);
    FillSlot(s.bits, s.data, s.files, s.owner, meta, t.data, t.files, i, NDIRECT + j, b);
    assert SlotOf(s, i, INDIRECT) in s.owner && s.owner[SlotOf(s, i, INDIRECT)] == Holder(i, INDIRECT);
  }

  lemma AddIndirectMaps(s: Fs, meta: nat, i: nat, j: nat, b: nat)
    requires Good(s, meta) && i < |s.files| && j < NINDIRECT && Free(s, b)
    requires s.files[i].addrs[NDIRECT] != 0 && SlotOf(s, i, NDIRECT + j) == 0
    ensures s.files[i].addrs[NDIRECT] < |s.data|
    ensures Good(AddIndirect(s, i, j, b), meta) && Mapped(s, AddIndirect(s, i, j, b), i, NDIRECT + j)
    ensures SlotOf(AddIndirect(s, i, j, b), i, NDIRECT + j) == b
  {
    hide Owned;
    AddIndirectGood(s, meta, i, j, b);
  }

  lemma FreshIndirect(s: Fs, meta: nat, i: nat, b: nat, bn: nat)
    requires Good(s, meta) && i < |s.files| && Free(s, b) && s.files[i].addrs[NDIRECT] == 0 && NDIRECT <= bn < MAXFILE
    ensures var t := AddDirect(s, i, NDIRECT, b);
            && |t.files| == |s.files| && GoodInode(t.files[i]) && t.files[i].addrs[NDIRECT] == b && b != 0
            && SlotOf(t, i, bn) == 0 && SlotOf(s, i, bn) == 0
  {
    AddDirectGood(s, meta, i, NDIRECT, b);
    FreeIsUnowned(s, meta, b);
  }

  /** Allocating the indirect block first and an entry in it next is still one mapping step. */
  lemma LinkThenMap(s: Fs, t: Fs, u: Fs, meta: nat, i: nat, bn: nat, b: nat)
    requires Good(s, meta) && i < |s.files| && Free(s, b) && s.files[i].addrs[NDIRECT] == 0
    requires t == AddDirect(s, i, NDIRECT, b) && Good(t, meta) && Good(u, meta)
    requires NDIRECT <= bn < MAXFILE && SlotOf(s, i, bn) == 0 && SlotOf(t, i, bn) == 0 && Mapped(t, u, i, bn)
    ensures Mapped(s, u, i, bn)
  {
    FreeIsUnowned(s, meta, b);
    AddDirectGood(s, meta, i, NDIRECT, b);
    GrowsTrans(s, t, u, i);
  }

  // ---------------------------------------------------------------- bytes

  /** Byte `p` of inode `i`, for any position inside a mapped block. */
  function ByteAt(s: Fs, i: nat, p: nat): byte
    requires i < |s.files| && GoodInode(s.files[i]) && p / BSIZE < MAXFILE
    requires SlotOf(s, i, p / BSIZE) < |s.data|
  {
    s.data[SlotOf(s, i, p / BSIZE)][p % BSIZE]
  }

  lemma SlotInRange(s: Fs, meta: nat, i: nat, k: nat)
    requires Good(s, meta) && i < |s.files| && k <= INDIRECT
    ensures SlotOf(s, i, k) < |s.data| || SlotOf(s, i, k) == 0
    ensures SlotOf(s, i, k) != 0 ==> SlotOf(s, i, k) in s.owner && s.owner[SlotOf(s, i, k)] == Holder(i, k)
  {
  }

  /** Slot `k` holds a block inside the disk. */
  predicate HasSlot(s: Fs, i: nat, k: nat) {
    i < |s.files| && GoodInode(s.files[i]) && k < MAXFILE && 0 < SlotOf(s, i, k) < |s.data|
  }

  lemma ShapeHasSlot(s: Fs, meta: nat, i: nat, nb: nat, k: nat)
    requires Good(s, meta) && i < |s.files| && Shape(s.data, s.files[i], nb) && k < nb
    ensures HasSlot(s, i, k)
  {
    SlotInRange(s, meta, i, k);
  }

  function Splice(b: Block, o: nat, chunk: seq<byte>): (r: Block)
    requires o + |chunk| <= BSIZE
  {
    b[..o] + chunk + b[o + |chunk|..]
  }

  /** Overwriting part of a data block: slots and owners stay, exactly the bytes of that part change. */
  lemma BlockWrite(s: Fs, meta: nat, i: nat, bn: nat, o: nat, chunk: seq<byte>)
    requires Good(s, meta) && HasSlot(s, i, bn) && o + |chunk| <= BSIZE
    ensures var a := SlotOf(s, i, bn);
            var t := s.(data := s.data[a := Splice(s.data[a], o, chunk)]);
            && Good(t, meta) && Grows(s, t, i)
            && (forall j, k :: 0 <= j < |s.files| && 0 <= k <= INDIRECT ==> SlotOf(t, j, k) == SlotOf(s, j, k))
            && (forall k :: HasSlot(s, i, k) && k != bn ==> t.data[SlotOf(s, i, k)] == s.data[SlotOf(s, i, k)])
  {
    var a := SlotOf(s, i, bn);
    SlotInRange(s, meta, i, bn);
    DataBlockFrame(s.data, s.files, s.owner, a, Splice(s.data[a], o, chunk));
    SameSlots(s.bits, s.data, s.files, s.owner, meta, s.data[a := Splice(s.data[a], o, chunk)]);
    forall k | HasSlot(s, i, k) && k != bn
      ensures SlotOf(s, i, k) != a
    {
      SlotInRange(s, meta, i, k);
    }
  }

  /** A growth step leaves the bytes of every other inode alone. */
  lemma OtherBytes(s: Fs, t: Fs, meta: nat, i: nat, j: nat, p: nat)
    requires Good(s, meta) && Good(t, meta) && Grows(s, t, i) && j != i
    requires HasSlot(s, j, p / BSIZE)
    ensures HasSlot(t, j, p / BSIZE) && ByteAt(t, j, p) == ByteAt(s, j, p)
  {
    SlotKept(s, t, i, meta, j, p / BSIZE);
    SlotInRange(s, meta, j, p / BSIZE);
  }

  /** Mapping a block leaves the bytes of already mapped blocks alone; a new block reads as zeroes. */
  lemma MappedBytes(s: Fs, t: Fs, meta: nat, i: nat, bn: nat, p: nat)
    requires Good(s, meta) && Good(t, meta) && Mapped(s, t, i, bn)
    ensures HasSlot(s, i, p / BSIZE) ==> HasSlot(t, i, p / BSIZE) && ByteAt(t, i, p) == ByteAt(s, i, p)
    ensures p / BSIZE == bn && SlotOf(s, i, bn) == 0 ==> HasSlot(t, i, bn) && ByteAt(t, i, p) == 0
  {
    if HasSlot(s, i, p / BSIZE) {
      SlotKept(s, t, i, meta, i, p / BSIZE);
      SlotInRange(s, meta, i, p / BSIZE);
    }
    SlotInRange(t, meta, i, bn);
  }

  // ---------------------------------------------------------------- the loop of writei

  function Max(a: nat, b: nat): nat {
    if a < b then b else a
  }

  /** Byte `p` after the first `w` bytes of `src` went to offset `off` of a file that had `nb0` blocks. */
  function WrittenByte(s: Fs, i: nat, off: nat, src: seq<byte>, w: nat, nb0: nat, p: nat): byte
    requires w <= |src|
  {
    if off <= p < off + w then src[p - off]
    else if p / BSIZE < nb0 && HasSlot(s, i, p / BSIZE) then ByteAt(s, i, p)
    else 0
  }

  ghost predicate Written(s: Fs, t: Fs, meta: nat, i: nat, off: nat, src: seq<byte>, w: nat, nb0: nat) {
    && Good(t, meta) && Grows(s, t, i) && w <= |src|
    && Shape(t.data, t.files[i], Max(nb0, NB(off + w)))
    && (NB(off + w) <= nb0 ==> t.files == s.files)
    && (forall p :: 0 <= p && p / BSIZE < Max(nb0, NB(off + w)) ==>
          HasSlot(t, i, p / BSIZE) && ByteAt(t, i, p) == WrittenByte(s, i, off, src, w, nb0, p))
  }

  lemma WrittenNothing(s: Fs, meta: nat, i: nat, off: nat, src: seq<byte>, nb0: nat)
    requires Good(s, meta) && i < |s.files| && Shape(s.data, s.files[i], nb0) && NB(off) <= nb0
    ensures Written(s, s, meta, i, off, src, 0, nb0)
  {
    forall p | 0 <= p && p / BSIZE < nb0
      ensures HasSlot(s, i, p / BSIZE)
    {
      ShapeHasSlot(s, meta, i, nb0, p / BSIZE);
    }
  }

  /** One round of writei writes up to the end of the current block. */
  predicate Round(off: nat, n: nat, w: nat, bn: nat, o: nat, m: nat) {
    && bn == (off + w) / BSIZE && o == (off + w) % BSIZE
    && 0 < m && o + m <= BSIZE && w + m <= n
  }

  lemma RoundBlocks(off: nat, n: nat, w: nat, bn: nat, o: nat, m: nat, nb0: nat)
    requires Round(off, n, w, bn, o, m) && NB(off) <= nb0
    ensures NB(off + w + m) == bn + 1
    ensures bn <= Max(nb0, NB(off + w))
    ensures Max(nb0, NB(off + w + m)) == if bn == Max(nb0, NB(off + w)) then bn + 1 else Max(nb0, NB(off + w))
    ensures forall p: nat :: off + w <= p < off + w + m <==> p / BSIZE == bn && o <= p % BSIZE < o + m
  {
  }

  lemma RoundByte(s: Fs, t: Fs, u: Fs, meta: nat, i: nat, off: nat, src: seq<byte>, w: nat, nb0: nat,
                  bn: nat, o: nat, m: nat, p: nat)
    requires Written(s, t, meta, i, off, src, w, nb0) && NB(off) <= nb0
    requires Round(off, |src|, w, bn, o, m) && Good(u, meta) && Mapped(t, u, i, bn)
    requires p / BSIZE < Max(nb0, NB(off + w + m)) && !(off + w <= p < off + w + m)
    ensures HasSlot(u, i, p / BSIZE) && ByteAt(u, i, p) == WrittenByte(s, i, off, src, w + m, nb0, p)
  {
    RoundBlocks(off, |src|, w, bn, o, m, nb0);
    MappedBytes(t, u, meta, i, bn, p);
    if p / BSIZE >= Max(nb0, NB(off + w)) {
      assert p / BSIZE == bn;
      assert SlotOf(t, i, bn) == 0;
    }
  }

  function PutBytes(u: Fs, a: nat, o: nat, chunk: seq<byte>): Fs
    requires a < |u.data| && o + |chunk| <= BSIZE
  {
    u.(data := u.data[a := Splice(u.data[a], o, chunk)])
  }

  /** The bytes of inode `i` after overwriting part of the block in slot `bn`. */
  lemma PutBytesAt(u: Fs, meta: nat, i: nat, bn: nat, o: nat, chunk: seq<byte>, p: nat)
    requires Good(u, meta) && HasSlot(u, i, bn) && o + |chunk| <= BSIZE && HasSlot(u, i, p / BSIZE)
    ensures var v := PutBytes(u, SlotOf(u, i, bn), o, chunk);
            && HasSlot(v, i, p / BSIZE)
            && ByteAt(v, i, p) == if p / BSIZE == bn && o <= p % BSIZE < o + |chunk| then chunk[p % BSIZE - o] else ByteAt(u, i, p)
  {
    BlockWrite(u, meta, i, bn, o, chunk);
  }

  /** Which positions a round writes, and from where. */
  lemma RoundAt(off: nat, n: nat, w: nat, bn: nat, o: nat, m: nat, p: nat)
    requires Round(off, n, w, bn, o, m)
    ensures 0 < m && o + m <= BSIZE && w + m <= n
    ensures off + w <= p < off + w + m <==> p / BSIZE == bn && o <= p % BSIZE < o + m
    ensures off + w <= p < off + w + m ==> p % BSIZE - o == p - off - w
  {
  }

  lemma RoundBytes(s: Fs, t: Fs, u: Fs, meta: nat, i: nat, off: nat, src: seq<byte>, w: nat, nb0: nat,
                   bn: nat, o: nat, m: nat, p: nat)
    requires Written(s, t, meta, i, off, src, w, nb0) && NB(off) <= nb0
    requires Round(off, |src|, w, bn, o, m) && Good(u, meta) && Mapped(t, u, i, bn) && HasSlot(u, i, bn)
    requires p / BSIZE < Max(nb0, NB(off + w + m))
    ensures var v := PutBytes(u, SlotOf(u, i, bn), o, src[w..w + m]);
            HasSlot(v, i, p / BSIZE) && ByteAt(v, i, p) == WrittenByte(s, i, off, src, w + m, nb0, p)
  {
    hide Good, Written, Mapped, NB, Round, HasSlot, ByteAt, PutBytes;
    RoundAt(off, |src|, w, bn, o, m, p);
    if off + w <= p < off + w + m {
      PutBytesAt(u, meta, i, bn, o, src[w..w + m], p);
    } else {
      RoundByte(s, t, u, meta, i, off, src, w, nb0, bn, o, m, p);
      PutBytesAt(u, meta, i, bn, o, src[w..w + m], p);
    }
  }

  lemma RoundShape(s: Fs, t: Fs, u: Fs, meta: nat, i: nat, off: nat, src: seq<byte>, w: nat, nb0: nat,
                   bn: nat, o: nat, m: nat)
    requires Written(s, t, meta, i, off, src, w, nb0) && NB(off) <= nb0
    requires Round(off, |src|, w, bn, o, m) && Good(u, meta) && Mapped(t, u, i, bn) && HasSlot(u, i, bn)
    ensures var v := PutBytes(u, SlotOf(u, i, bn), o, src[w..w + m]);
            && Good(v, meta) && Grows(s, v, i)
            && Shape(v.data, v.files[i], Max(nb0, NB(off + w + m)))
            && (NB(off + w + m) <= nb0 ==> v.files == s.files)
  {
    var nb := Max(nb0, NB(off + w));
    RoundBlocks(off, |src|, w, bn, o, m, nb0);
    MappedShape(t, u, i, bn, nb, meta);
    BlockWrite(u, meta, i, bn, o, src[w..w + m]);
    var v := PutBytes(u, SlotOf(u, i, bn), o, src[w..w + m]);
    GrowsTrans(s, t, u, i);
    GrowsTrans(s, u, v, i);
    forall k | 0 <= k < MAXFILE ensures Ref(v.data, v.files[i], k) == Ref(u.data, u.files[i], k) {
      assert SlotOf(v, i, k) == SlotOf(u, i, k);
    }
    assert SlotOf(v, i, INDIRECT) == SlotOf(u, i, INDIRECT);
  }

  lemma WrittenStep(s: Fs, t: Fs, u: Fs, meta: nat, i: nat, off: nat, src: seq<byte>, w: nat, nb0: nat,
                    bn: nat, o: nat, m: nat)
    requires Written(s, t, meta, i, off, src, w, nb0) && NB(off) <= nb0
    requires Round(off, |src|, w, bn, o, m) && Good(u, meta) && Mapped(t, u, i, bn) && HasSlot(u, i, bn)
    ensures Written(s, PutBytes(u, SlotOf(u, i, bn), o, src[w..w + m]), meta, i, off, src, w + m, nb0)
  {
    var v := PutBytes(u, SlotOf(u, i, bn), o, src[w..w + m]);
    RoundShape(s, t, u, meta, i, off, src, w, nb0, bn, o, m);
    forall p | 0 <= p && p / BSIZE < Max(nb0, NB(off + w + m))
      ensures HasSlot(v, i, p / BSIZE) && ByteAt(v, i, p) == WrittenByte(s, i, off, src, w + m, nb0, p)
    {
      RoundBytes(s, t, u, meta, i, off, src, w, nb0, bn, o, m, p);
    }
  }

  // ---------------------------------------------------------------- files as byte sequences

  predicate Readable(s: Fs, i: nat) {
    && i < |s.files| && GoodInode(s.files[i])
    && (forall k :: 0 <= k < NB(s.files[i].size) ==> HasSlot(s, i, k))
  }

  function Content(s: Fs, i: nat): (c: seq<byte>)
    requires Readable(s, i)
    ensures |c| == s.files[i].size
  {
    seq(s.files[i].size, p requires 0 <= p < s.files[i].size =>
      assert HasSlot(s, i, p / BSIZE);
      ByteAt(s, i, p))
  }

  /** The specification of a write: replace from `off` on, extending the sequence if need be. */
  function Overwrite(c: seq<byte>, off: nat, src: seq<byte>): (r: seq<byte>)
    requires off <= |c|
    ensures |r| == Max(|c|, off + |src|)
  {
    c[..off] + src + if off + |src| < |c| then c[off + |src|..] else []
  }

  lemma OverwriteAt(c: seq<byte>, off: nat, src: seq<byte>, p: nat)
    requires off <= |c| && p < Max(|c|, off + |src|)
    ensures Overwrite(c, off, src)[p] == if off <= p < off + |src| then src[p - off] else c[p]
  {
  }

  lemma OverwriteTwice(c: seq<byte>, off: nat, a: seq<byte>, b: seq<byte>)
    requires off <= |c|
    ensures Overwrite(Overwrite(c, off, a), off + |a|, b) == Overwrite(c, off, a + b)
  {
  }

  lemma ShapeReadable(s: Fs, meta: nat, i: nat)
    requires Good(s, meta) && i < |s.files| && Shape(s.data, s.files[i], NB(s.files[i].size))
    ensures Readable(s, i)
  {
    forall k | 0 <= k < NB(s.files[i].size) ensures HasSlot(s, i, k) {
      ShapeHasSlot(s, meta, i, NB(s.files[i].size), k);
    }
  }

  function Resize(t: Fs, i: nat, size: nat): (u: Fs)
    requires i < |t.files|
    ensures |u.files| == |t.files| && u.files[i].addrs == t.files[i].addrs && u.data == t.data && u.owner == t.owner
  {
    t.(files := t.files[i := t.files[i].(size := size)])
  }

  lemma ResizeKeeps(t: Fs, meta: nat, i: nat, size: nat)
    requires Good(t, meta) && i < |t.files|
    ensures var u := Resize(t, i, size);
            Good(u, meta) && forall j, k :: 0 <= j < |t.files| && 0 <= k <= INDIRECT ==> SlotOf(u, j, k) == SlotOf(t, j, k)
  {
    var u := Resize(t, i, size);
    assert forall j :: 0 <= j < |t.files| ==> u.files[j].addrs == t.files[j].addrs;
    forall j, k | 0 <= j < |t.files| && 0 <= k <= INDIRECT
      ensures Ref(u.data, u.files[j], k) == Ref(t.data, t.files[j], k)
    {
    }
  }

  /** The finished write: the file's bytes are the overwritten bytes. */
  lemma WriteContent(s: Fs, t: Fs, meta: nat, i: nat, off: nat, src: seq<byte>)
    requires Good(s, meta) && Readable(s, i) && off <= s.files[i].size
    requires Written(s, t, meta, i, off, src, |src|, NB(s.files[i].size))
    ensures var size' := Max(s.files[i].size, off + |src|);
            var u := Resize(t, i, size');
            && Good(u, meta) && Shape(u.data, u.files[i], NB(size'))
            && Readable(u, i) && Content(u, i) == Overwrite(Content(s, i), off, src)
  {
    var size := s.files[i].size;
    var size' := Max(size, off + |src|);
    var u := Resize(t, i, size');
    ResizeKeeps(t, meta, i, size');
    assert NB(size') == Max(NB(size), NB(off + |src|));
    forall k | 0 <= k < MAXFILE ensures Ref(u.data, u.files[i], k) == Ref(t.data, t.files[i], k) {
      assert SlotOf(u, i, k) == SlotOf(t, i, k);
    }
    assert SlotOf(u, i, INDIRECT) == SlotOf(t, i, INDIRECT);
    ShapeReadable(u, meta, i);
    forall p | 0 <= p < size' ensures Content(u, i)[p] == Overwrite(Content(s, i), off, src)[p] {
      WrittenContentByte(s, t, u, meta, i, off, src, p);
    }
  }

  lemma WrittenContentByte(s: Fs, t: Fs, u: Fs, meta: nat, i: nat, off: nat, src: seq<byte>, p: nat)
    requires Good(s, meta) && Readable(s, i) && off <= s.files[i].size
    requires Written(s, t, meta, i, off, src, |src|, NB(s.files[i].size))
    requires u == Resize(t, i, Max(s.files[i].size, off + |src|)) && Readable(u, i)
    requires p < Max(s.files[i].size, off + |src|)
    ensures Content(u, i)[p] == Overwrite(Content(s, i), off, src)[p]
  {
    assert p / BSIZE < Max(NB(s.files[i].size), NB(off + |src|));
    assert HasSlot(u, i, p / BSIZE) && SlotOf(u, i, p / BSIZE) == SlotOf(t, i, p / BSIZE);
    assert Content(u, i)[p] == ByteAt(t, i, p);
    OverwriteAt(Content(s, i), off, src, p);
    if !(off <= p < off + |src|) {
      assert HasSlot(s, i, p / BSIZE) && Content(s, i)[p] == ByteAt(s, i, p);
    }
  }

  lemma OtherContent(s: Fs, t: Fs, meta: nat, i: nat, j: nat)
    requires Good(s, meta) && Good(t, meta) && Grows(s, t, i) && j != i && Readable(s, j)
    ensures Readable(t, j) && Content(t, j) == Content(s, j)
  {
    assert t.files[j] == s.files[j];
    forall k | 0 <= k < NB(s.files[j].size) ensures HasSlot(t, j, k) {
      assert HasSlot(s, j, k) && k * BSIZE / BSIZE == k;
      OtherBytes(s, t, meta, i, j, k * BSIZE);
    }
    forall p | 0 <= p < s.files[j].size ensures Content(t, j)[p] == Content(s, j)[p] {
      assert HasSlot(s, j, p / BSIZE);
      OtherBytes(s, t, meta, i, j, p);
    }
  }
}
