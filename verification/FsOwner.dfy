/**
 Which inode slot holds which disk block, and what the bytes of a file are. Pure definitions over the
 parts of a file system (free map, data blocks, inodes) together with the facts that block allocation,
 block writes and block release rely on.
 */
module FsOwner {
  import opened FsBlocks

  /** The inode fields that matter here: dinode and its in-memory copy. */
  datatype Inode = Inode(kind: int, nlink: int, size: nat, addrs: seq<nat>)

  const NSLOT := NDIRECT + 1

  /** Index of the slot that holds the indirect block; 0..MAXFILE-1 are the data slots. */
  const INDIRECT := MAXFILE

  predicate GoodInode(f: Inode) {
    |f.addrs| == NSLOT
  }

  /** The block in slot `k` of an inode, 0 if none. */
  function Ref(data: seq<Block>, f: Inode, k: nat): (b: nat)
    requires GoodInode(f) && k <= INDIRECT
  {
    if k < NDIRECT then f.addrs[k]
    else if k == INDIRECT then f.addrs[NDIRECT]
    else if 0 < f.addrs[NDIRECT] < |data| then GetWord(data[f.addrs[NDIRECT]], k - NDIRECT)
    else 0
  }

  datatype Holder = Holder(inum: nat, slot: nat)
  type Owner = map<nat, Holder>

  /** Every slot's block is recorded, so no block sits in two slots. */
  ghost predicate SlotsOwned(data: seq<Block>, files: seq<Inode>, owner: Owner) {
    && (forall i :: 0 <= i < |files| ==> GoodInode(files[i]))
    && (forall i, k :: 0 <= i < |files| && 0 <= k <= INDIRECT ==>
          var b := Ref(data, files[i], k); b != 0 ==> b in owner && owner[b] == Holder(i, k))
  }

  /** Every recorded block is a data block and sits in its slot. */
  ghost predicate OwnersHeld(data: seq<Block>, files: seq<Inode>, owner: Owner, meta: nat)
    requires forall i :: 0 <= i < |files| ==> GoodInode(files[i])
  {
    forall b :: b in owner ==>
      && 0 < meta <= b < |data|
      && owner[b].inum < |files| && owner[b].slot <= INDIRECT
      && Ref(data, files[owner[b].inum], owner[b].slot) == b
  }

  /** A free-map bit is set exactly for metadata blocks and held blocks. */
  predicate MapExact(bits: seq<bool>, size: nat, owner: Owner, meta: nat) {
    |bits| >= size && forall b :: 0 <= b < size ==> (bits[b] <==> b < meta || b in owner)
  }

  ghost predicate Owned(bits: seq<bool>, data: seq<Block>, files: seq<Inode>, owner: Owner, meta: nat) {
    && |data| < TWO32
    && SlotsOwned(data, files, owner)
    && OwnersHeld(data, files, owner, meta)
    && MapExact(bits, |data|, owner, meta)
  }

  /** Exactly the first `nb` data slots are filled, and the indirect block exists exactly when they need it. */
  ghost predicate Shape(data: seq<Block>, f: Inode, nb: nat)
    requires GoodInode(f)
  {
    && nb <= MAXFILE
    && (forall k :: 0 <= k < MAXFILE ==> (Ref(data, f, k) != 0 <==> k < nb))
    && (Ref(data, f, INDIRECT) != 0 <==> nb > NDIRECT)
  }

  /** Blocks needed for `size` bytes. */
  function NB(size: nat): nat {
    (size + BSIZE - 1) / BSIZE
  }

  ghost predicate Shaped(data: seq<Block>, files: seq<Inode>) {
    && (forall i :: 0 <= i < |files| ==> GoodInode(files[i]))
    && (forall i :: 0 <= i < |files| ==> Shape(data, files[i], NB(files[i].size)))
  }

  // ---------------------------------------------------------------- a block nobody holds

  /** Writing a block that is in no slot leaves every slot as it was. */
  lemma FreeBlockFrame(data: seq<Block>, files: seq<Inode>, owner: Owner, b: nat, x: Block)
    requires SlotsOwned(data, files, owner) && b < |data| && b !in owner
    ensures forall i, k :: 0 <= i < |files| && 0 <= k <= INDIRECT ==>
              Ref(data[b := x], files[i], k) == Ref(data, files[i], k)
  {
    forall i, k | 0 <= i < |files| && 0 <= k <= INDIRECT
      ensures Ref(data[b := x], files[i], k) == Ref(data, files[i], k)
    {
      var ind := Ref(data, files[i], INDIRECT);
      assert ind != 0 ==> ind in owner;
    }
  }

  /** Writing a held data block leaves every slot as it was. */
  lemma DataBlockFrame(data: seq<Block>, files: seq<Inode>, owner: Owner, b: nat, x: Block)
    requires SlotsOwned(data, files, owner) && b < |data| && b in owner && owner[b].slot < MAXFILE
    ensures forall i, k :: 0 <= i < |files| && 0 <= k <= INDIRECT ==>
              Ref(data[b := x], files[i], k) == Ref(data, files[i], k)
  {
    forall i, k | 0 <= i < |files| && 0 <= k <= INDIRECT
      ensures Ref(data[b := x], files[i], k) == Ref(data, files[i], k)
    {
      var ind := Ref(data, files[i], INDIRECT);
      assert ind != 0 ==> ind in owner && owner[ind].slot == INDIRECT;
    }
  }

  /** Storing a word in inode `i`'s indirect block changes slot NDIRECT + j of inode `i` and no other slot. */
  lemma IndirectFrame(data: seq<Block>, files: seq<Inode>, owner: Owner, i: nat, j: nat, v: nat)
    requires SlotsOwned(data, files, owner) && i < |files| && j < NINDIRECT && v < TWO32
    requires 0 < files[i].addrs[NDIRECT] < |data|
    ensures var ind := files[i].addrs[NDIRECT];
            var data' := data[ind := PutWord(data[ind], j, v)];
            && Ref(data', files[i], NDIRECT + j) == v
            && (forall i', k :: 0 <= i' < |files| && 0 <= k <= INDIRECT && !(i' == i && k == NDIRECT + j) ==>
                  Ref(data', files[i'], k) == Ref(data, files[i'], k))
  {
    var ind := files[i].addrs[NDIRECT];
    var data' := data[ind := PutWord(data[ind], j, v)];
    WordRoundTrip(data[ind], j, v);
    forall i', k | 0 <= i' < |files| && 0 <= k <= INDIRECT && !(i' == i && k == NDIRECT + j)
      ensures Ref(data', files[i'], k) == Ref(data, files[i'], k)
    {
      var ind' := Ref(data, files[i'], INDIRECT);
      assert Ref(data, files[i], INDIRECT) == ind;
      assert ind' != 0 ==> ind' in owner && owner[ind'] == Holder(i', INDIRECT);
      if ind' == ind && NDIRECT <= k < MAXFILE {
        WordFrame(data[ind], j, v, k - NDIRECT);
      }
    }
  }

  // ---------------------------------------------------------------- filling and emptying one slot

  /** From (data, files) to (data', files') slot `k` of inode `i` becomes `b` and no other slot changes. */
  ghost predicate OneSlot(data: seq<Block>, files: seq<Inode>, data': seq<Block>, files': seq<Inode>, i: nat, k: nat, b: nat)
  {
    && |files'| == |files| && |data'| == |data| && i < |files| && k <= INDIRECT
    && (forall j :: 0 <= j < |files| ==> GoodInode(files[j]) && GoodInode(files'[j]))
    && Ref(data', files'[i], k) == b
    && (forall j, l :: 0 <= j < |files| && 0 <= l <= INDIRECT && !(j == i && l == k) ==>
          Ref(data', files'[j], l) == Ref(data, files[j], l))
  }

  lemma FillSlot(bits: seq<bool>, data: seq<Block>, files: seq<Inode>, owner: Owner, meta: nat,
                 data': seq<Block>, files': seq<Inode>, i: nat, k: nat, b: nat)
    requires Owned(bits, data, files, owner, meta) && OneSlot(data, files, data', files', i, k, b)
    requires b < |data| && !bits[b] && 0 < meta && Ref(data, files[i], k) == 0
    ensures Owned(bits[b := true], data', files', owner[b := Holder(i, k)], meta)
  {
  }

  lemma EmptySlot(bits: seq<bool>, data: seq<Block>, files: seq<Inode>, owner: Owner, meta: nat,
                  data': seq<Block>, files': seq<Inode>, i: nat, k: nat, b: nat)
    requires Owned(bits, data, files, owner, meta) && OneSlot(data, files, data', files', i, k, 0)
    requires b != 0 && Ref(data, files[i], k) == b
    ensures b < |data| && bits[b] && Owned(bits[b := false], data', files', owner - {b}, meta)
  {
    assert b in owner && owner[b] == Holder(i, k);
  }

  lemma SameSlots(bits: seq<bool>, data: seq<Block>, files: seq<Inode>, owner: Owner, meta: nat, data': seq<Block>)
    requires Owned(bits, data, files, owner, meta) && |data'| == |data|
    requires forall i, k :: 0 <= i < |files| && 0 <= k <= INDIRECT ==> Ref(data', files[i], k) == Ref(data, files[i], k)
    ensures Owned(bits, data', files, owner, meta)
  {
    forall i, k | 0 <= i < |files| && 0 <= k <= INDIRECT
      ensures var b := Ref(data', files[i], k); b != 0 ==> b in owner && owner[b] == Holder(i, k)
    {
      assert Ref(data', files[i], k) == Ref(data, files[i], k);
    }
  }

  function SetAddr(files: seq<Inode>, i: nat, k: nat, b: nat): (r: seq<Inode>)
    requires i < |files| && GoodInode(files[i]) && k < NSLOT
    ensures |r| == |files|
  {
    files[i := files[i].(addrs := files[i].addrs[k := b])]
  }

  /** Storing a fresh zeroed block directly in the inode. */
  lemma FillDirect(bits: seq<bool>, data: seq<Block>, files: seq<Inode>, owner: Owner, meta: nat, i: nat, k: nat, b: nat)
    requires Owned(bits, data, files, owner, meta) && i < |files| && k < NSLOT && b < |data|
    requires b !in owner && b != 0 && files[i].addrs[k] == 0
    ensures OneSlot(data, files, data[b := Zero()], SetAddr(files, i, k, b), i, if k == NDIRECT then INDIRECT else k, b)
  {
    FreeBlockFrame(data, files, owner, b, Zero());
    var data', files' := data[b := Zero()], SetAddr(files, i, k, b);
    var k' := if k == NDIRECT then INDIRECT else k;
    hide GetWord, Zero, OwnersHeld, MapExact;
    forall j, l | 0 <= j < |files| && 0 <= l <= INDIRECT && !(j == i && l == k')
      ensures Ref(data', files'[j], l) == Ref(data, files[j], l)
    {
      assert Ref(data', files[j], l) == Ref(data, files[j], l);
      if j == i && k == NDIRECT && NDIRECT <= l < MAXFILE {
        ZeroWords(l - NDIRECT);
      }
    }
  }

  /** Storing a fresh zeroed block in the indirect block. */
  lemma FillIndirect(bits: seq<bool>, data: seq<Block>, files: seq<Inode>, owner: Owner, meta: nat, i: nat, j: nat, b: nat)
    requires Owned(bits, data, files, owner, meta) && i < |files| && j < NINDIRECT && b < |data|
    requires b !in owner && files[i].addrs[NDIRECT] != 0
    ensures files[i].addrs[NDIRECT] < |data| && files[i].addrs[NDIRECT] != b
    ensures var ind := files[i].addrs[NDIRECT];
            OneSlot(data, files, data[b := Zero()][ind := PutWord(data[ind], j, b)], files, i, NDIRECT + j, b)
  {
    var ind := Ref(data, files[i], INDIRECT);
    assert ind in owner;
    var data1 := data[b := Zero()];
    FreeBlockFrame(data, files, owner, b, Zero());
    SameSlots(bits, data, files, owner, meta, data1);
    IndirectFrame(data1, files, owner, i, j, b);
  }
}
