/** How many blocks itrunc logs, and for which disks that always fits one operation's reservation. */
module FsTruncLog {
  import opened Sets
  import opened FsBlocks
  import opened FsOwner
  import opened FsFile
  import opened FileSystem

  /** The blocks itrunc hands to log_write, as Itrunc's contract gives them. */
  ghost function TruncCost(s: Fs, bmapstart: nat, inodestart: nat, i: nat): set<nat> {
    MapsOf(s.owner, bmapstart, i, INDIRECT + 1) + {IBlock(inodestart, i)}
  }

  /** One call fits if and only if the file's blocks lie in the range of fewer than MAXOPBLOCKS free-map blocks. */
  lemma TruncFitsExactly(s: Fs, bmapstart: nat, inodestart: nat, i: nat)
    requires IBlock(inodestart, i) < bmapstart
    ensures |TruncCost(s, bmapstart, inodestart, i)| <= MAXOPBLOCKS <==> |MapsOf(s.owner, bmapstart, i, INDIRECT + 1)| < MAXOPBLOCKS
  {
    assert IBlock(inodestart, i) !in MapsOf(s.owner, bmapstart, i, INDIRECT + 1);
  }

  /** The `n` free-map blocks from `start` on. */
  ghost function FirstMaps(start: nat, n: nat): (maps: set<nat>)
    ensures |maps| == n && forall x :: x in maps <==> start <= x < start + n
  {
    if n == 0 then {} else FirstMaps(start, n - 1) + {start + n - 1}
  }

  /** The largest disk whose data blocks have their bits in fewer than MAXOPBLOCKS free-map blocks. */
  function Limit(meta: nat): nat {
    (meta / BPB + MAXOPBLOCKS - 1) * BPB
  }

  lemma SmallDiskFits(s: Fs, meta: nat, bmapstart: nat, i: nat)
    requires Good(s, meta) && |s.data| <= Limit(meta)
    ensures |MapsOf(s.owner, bmapstart, i, INDIRECT + 1)| < MAXOPBLOCKS
  {
    MapsInRange(s, meta, bmapstart, i, MAXOPBLOCKS - 1);
  }

  lemma MapsInRange(s: Fs, meta: nat, bmapstart: nat, i: nat, m: nat)
    requires Good(s, meta) && |s.data| <= (meta / BPB + m) * BPB
    ensures |MapsOf(s.owner, bmapstart, i, INDIRECT + 1)| <= m
  {
    var all := FirstMaps(bmapstart + meta / BPB, m);
    forall x | x in MapsOf(s.owner, bmapstart, i, INDIRECT + 1) ensures x in all {
      var b :| b in s.owner && ClearedBy(s.owner, i, b, INDIRECT + 1) && BBlock(bmapstart, b) == x;
      assert meta <= b < |s.data|;
    }
    SubsetSize(MapsOf(s.owner, bmapstart, i, INDIRECT + 1), all);
  }

  // ---------------------------------------------------------------- a disk that is too large

  /** Ten blocks in the range of ten different free-map blocks. */
  function Far(meta: nat, k: nat): nat {
    if k == 0 then meta else (meta / BPB + k) * BPB
  }

  predicate IsFar(meta: nat, b: nat) {
    meta <= b && b == Far(meta, b / BPB - meta / BPB)
  }

  ghost function FarOwner(meta: nat): Owner {
    map b: nat | b < Limit(meta) + BPB && IsFar(meta, b) :: Holder(0, b / BPB - meta / BPB)
  }

  ghost function FarFile(meta: nat): Inode {
    Inode(2, 1, MAXOPBLOCKS * BSIZE, seq(NSLOT, k requires 0 <= k < NSLOT => if k < MAXOPBLOCKS then Far(meta, k) else 0))
  }

  ghost function FarFs(n: nat, meta: nat): Fs
    requires 0 < meta
  {
    Fs(seq(n, b requires 0 <= b < n => b < meta || b in FarOwner(meta)), seq(n, _ => Zero()), [FarFile(meta)], FarOwner(meta))
  }

  lemma FarDiv(meta: nat, k: nat)
    requires 0 < meta && k < MAXOPBLOCKS
    ensures Far(meta, k) / BPB == meta / BPB + k && Far(meta, k) < Limit(meta) + BPB && IsFar(meta, Far(meta, k))
  {
  }

  lemma FarSlots(n: nat, meta: nat)
    requires 0 < meta && Limit(meta) < n < TWO32
    ensures var s := FarFs(n, meta); SlotsOwned(s.data, s.files, s.owner) && OwnersHeld(s.data, s.files, s.owner, meta)
  {
    var s := FarFs(n, meta);
    forall k | 0 <= k <= INDIRECT
      ensures Ref(s.data, s.files[0], k) == if k < MAXOPBLOCKS then Far(meta, k) else 0
    {
      FarRef(n, meta, k);
    }
    forall k: nat | k < MAXOPBLOCKS
      ensures Far(meta, k) in s.owner && s.owner[Far(meta, k)] == Holder(0, k)
    {
      FarDiv(meta, k);
    }
    hide Ref, Zero;
  }

  lemma FarRef(n: nat, meta: nat, k: nat)
    requires 0 < meta && k <= INDIRECT
    ensures Ref(FarFs(n, meta).data, FarFile(meta), k) == if k < MAXOPBLOCKS then Far(meta, k) else 0
  {
  }

  lemma FarGood(n: nat, meta: nat)
    requires 0 < meta && Limit(meta) < n < TWO32
    ensures Good(FarFs(n, meta), meta)
  {
    hide SlotsOwned, OwnersHeld;
    FarSlots(n, meta);
  }

  lemma FarShaped(n: nat, meta: nat)
    requires 0 < meta && Limit(meta) < n < TWO32
    ensures Shaped(FarFs(n, meta).data, FarFs(n, meta).files)
  {
    var s := FarFs(n, meta);
    assert NB(s.files[0].size) == MAXOPBLOCKS;
    assert Shape(s.data, s.files[0], MAXOPBLOCKS);
  }

  lemma FarMap(owner: Owner, bmapstart: nat, meta: nat, k: nat)
    requires 0 < meta && k < MAXOPBLOCKS && owner == FarOwner(meta)
    ensures bmapstart + meta / BPB + k in MapsOf(owner, bmapstart, 0, INDIRECT + 1)
  {
    FarDiv(meta, k);
    assert ClearedBy(owner, 0, Far(meta, k), INDIRECT + 1) && BBlock(bmapstart, Far(meta, k)) == bmapstart + meta / BPB + k;
  }

  lemma FarMapOnly(owner: Owner, bmapstart: nat, meta: nat, x: nat)
    requires owner == FarOwner(meta) && x in MapsOf(owner, bmapstart, 0, INDIRECT + 1)
    ensures bmapstart + meta / BPB <= x < bmapstart + meta / BPB + MAXOPBLOCKS
  {
    var b :| b in owner && ClearedBy(owner, 0, b, INDIRECT + 1) && BBlock(bmapstart, b) == x;
  }

  lemma FarMaps(n: nat, meta: nat, bmapstart: nat)
    requires 0 < meta
    ensures |MapsOf(FarFs(n, meta).owner, bmapstart, 0, INDIRECT + 1)| == MAXOPBLOCKS
  {
    FarRange(meta, bmapstart, bmapstart + meta / BPB, MAXOPBLOCKS);
  }

  lemma FirstMapsAre(start: nat, n: nat)
    ensures |FirstMaps(start, n)| == n && forall x :: x in FirstMaps(start, n) <==> start <= x < start + n
  {
  }

  lemma FarRange(meta: nat, bmapstart: nat, start: nat, m: nat)
    requires 0 < meta && start == bmapstart + meta / BPB && m == MAXOPBLOCKS
    ensures |MapsOf(FarOwner(meta), bmapstart, 0, INDIRECT + 1)| == m
  {
    hide MapsOf, FarOwner, FirstMaps;
    FirstMapsAre(start, m);
    var maps := MapsOf(FarOwner(meta), bmapstart, 0, INDIRECT + 1);
    forall x | x in FirstMaps(start, m)
      ensures x in maps
    {
      FarMap(FarOwner(meta), bmapstart, meta, x - start);
    }
    forall x | x in maps
      ensures x in FirstMaps(start, m)
    {
      FarMapOnly(FarOwner(meta), bmapstart, meta, x);
    }
    assert maps == FirstMaps(start, m);
  }

  /**
   Every truncation on every file system of `n` blocks, `meta` of them metadata, fits one operation if and only if the
   bits of its data blocks lie in fewer than MAXOPBLOCKS free-map blocks. The disk mkfs makes has 1000 blocks and needs
   one.
   */
  lemma TruncLayoutExactly(n: nat, meta: nat, bmapstart: nat, inodestart: nat)
    requires 0 < meta && n < TWO32 && IBlock(inodestart, 0) < bmapstart
    ensures (forall s: Fs, i: nat ::
               Good(s, meta) && Shaped(s.data, s.files) && |s.data| == n && i < |s.files| && IBlock(inodestart, i) < bmapstart
               ==> |TruncCost(s, bmapstart, inodestart, i)| <= MAXOPBLOCKS)
            <==> n <= Limit(meta)
  {
    if n <= Limit(meta) {
      forall s: Fs, i: nat |
        Good(s, meta) && Shaped(s.data, s.files) && |s.data| == n && i < |s.files| && IBlock(inodestart, i) < bmapstart
        ensures |TruncCost(s, bmapstart, inodestart, i)| <= MAXOPBLOCKS
      {
        SmallDiskFits(s, meta, bmapstart, i);
        TruncFitsExactly(s, bmapstart, inodestart, i);
      }
    } else {
      var s := FarFs(n, meta);
      FarGood(n, meta);
      FarShaped(n, meta);
      FarMaps(n, meta, bmapstart);
      TruncFitsExactly(s, bmapstart, inodestart, 0);
      assert |s.data| == n && 0 < |s.files| && !(|TruncCost(s, bmapstart, inodestart, 0)| <= MAXOPBLOCKS);
    }
  }
}
