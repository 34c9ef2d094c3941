/**
 Which blocks an operation has handed to log_write, and that these are all the blocks it changed: data blocks by
 number, free-map bits by the free-map block that holds them.
 */
module FsLogged {
  import opened FsBlocks
  import opened FsOwner
  import opened FsFile

  /** A data block, or a free-map block of a disk of this size. */
  predicate Loggable(x: nat, meta: nat, size: nat, bmapstart: nat) {
    meta <= x < size || (0 < size && bmapstart <= x <= BBlock(bmapstart, size - 1))
  }

  /** From `s` to `t` only blocks in `after` changed, and those not in `before` are data or free-map blocks. */
  ghost predicate Logged(s: Fs, t: Fs, meta: nat, bmapstart: nat, before: set<nat>, after: set<nat>) {
    && before <= after && |t.data| == |s.data| && |t.bits| == |s.bits|
    && (forall b :: 0 <= b < |s.data| && t.data[b] != s.data[b] ==> b in after)
    && (forall b :: 0 <= b < |s.bits| && t.bits[b] != s.bits[b] ==> BBlock(bmapstart, b) in after)
    && (forall x :: x in after && x !in before ==> Loggable(x, meta, |s.data|, bmapstart))
  }

  lemma LoggedNothing(s: Fs, meta: nat, bmapstart: nat, touched: set<nat>)
    ensures Logged(s, s, meta, bmapstart, touched, touched)
  {
  }

  lemma LoggedThen(s: Fs, t: Fs, u: Fs, meta: nat, bmapstart: nat, a: set<nat>, b: set<nat>, c: set<nat>)
    requires Logged(s, t, meta, bmapstart, a, b) && Logged(t, u, meta, bmapstart, b, c)
    ensures Logged(s, u, meta, bmapstart, a, c)
  {
    forall x | 0 <= x < |s.data| && u.data[x] != s.data[x] ensures x in c {
      assert t.data[x] != s.data[x] || u.data[x] != t.data[x];
    }
    forall x | 0 <= x < |s.bits| && u.bits[x] != s.bits[x] ensures BBlock(bmapstart, x) in c {
      assert t.bits[x] != s.bits[x] || u.bits[x] != t.bits[x];
    }
  }

  lemma MapBlockInRange(b: nat, meta: nat, size: nat, bmapstart: nat)
    requires b < size
    ensures Loggable(BBlock(bmapstart, b), meta, size, bmapstart)
  {
  }

  lemma AddDirectLogged(s: Fs, meta: nat, bmapstart: nat, i: nat, k: nat, b: nat, touched: set<nat>)
    requires Good(s, meta) && i < |s.files| && GoodInode(s.files[i]) && k < NSLOT && Free(s, b)
    ensures Logged(s, AddDirect(s, i, k, b), meta, bmapstart, touched, touched + {BBlock(bmapstart, b), b})
  {
    FreeIsUnowned(s, meta, b);
    MapBlockInRange(b, meta, |s.data|, bmapstart);
  }

  lemma AddIndirectLogged(s: Fs, meta: nat, bmapstart: nat, i: nat, j: nat, b: nat, touched: set<nat>)
    requires Good(s, meta) && i < |s.files| && j < NINDIRECT && Free(s, b) && s.files[i].addrs[NDIRECT] != 0
    ensures s.files[i].addrs[NDIRECT] < |s.data|
    ensures Logged(s, AddIndirect(s, i, j, b), meta, bmapstart, touched,
                   touched + {BBlock(bmapstart, b), b, s.files[i].addrs[NDIRECT]})
  {
    FreeIsUnowned(s, meta, b);
    SlotInRange(s, meta, i, INDIRECT);
    MapBlockInRange(b, meta, |s.data|, bmapstart);
  }

  lemma PutBytesLogged(u: Fs, meta: nat, bmapstart: nat, i: nat, bn: nat, o: nat, chunk: seq<byte>, touched: set<nat>)
    requires Good(u, meta) && HasSlot(u, i, bn) && o + |chunk| <= BSIZE
    ensures var a := SlotOf(u, i, bn);
            Logged(u, PutBytes(u, a, o, chunk), meta, bmapstart, touched, touched + {a})
  {
    SlotInRange(u, meta, i, bn);
  }

  // ---------------------------------------------------------------- with the inode blocks

  /** What the disk is to hold: free map, data blocks and inodes. */
  datatype Image = Image(bits: seq<bool>, data: seq<Block>, dinodes: seq<Inode>)

  /** Where the inode and free-map blocks start, and the first data block. */
  datatype Places = Places(inodestart: nat, bmapstart: nat, meta: nat)

  predicate InodeBlock(x: nat, inodestart: nat, n: nat) {
    0 < n && inodestart <= x <= IBlock(inodestart, n - 1)
  }

  /** From `a` to `b` only blocks in `after` changed, and those not in `before` are data, free-map or inode blocks. */
  ghost predicate Changed(a: Image, b: Image, pl: Places, before: set<nat>, after: set<nat>) {
    && before <= after && |b.data| == |a.data| && |b.bits| == |a.bits| && |b.dinodes| == |a.dinodes|
    && (forall x :: 0 <= x < |a.data| && b.data[x] != a.data[x] ==> x in after)
    && (forall x :: 0 <= x < |a.bits| && b.bits[x] != a.bits[x] ==> BBlock(pl.bmapstart, x) in after)
    && (forall j :: 0 <= j < |a.dinodes| && b.dinodes[j] != a.dinodes[j] ==> IBlock(pl.inodestart, j) in after)
    && (forall x :: x in after && x !in before ==>
          Loggable(x, pl.meta, |a.data|, pl.bmapstart) || InodeBlock(x, pl.inodestart, |a.dinodes|))
  }

  /** Blocks logged by the write loop, and then the inode. */
  lemma ThenInode(s: Fs, t: Fs, pl: Places, dinodes: seq<Inode>, i: nat, n: Inode, a: set<nat>, b: set<nat>)
    requires Logged(s, t, pl.meta, pl.bmapstart, a, b) && i < |dinodes|
    ensures Changed(Image(s.bits, s.data, dinodes), Image(t.bits, t.data, dinodes[i := n]), pl, a, b + {IBlock(pl.inodestart, i)})
  {
  }

  lemma NoInode(s: Fs, t: Fs, pl: Places, dinodes: seq<Inode>, a: set<nat>, b: set<nat>)
    requires Logged(s, t, pl.meta, pl.bmapstart, a, b)
    ensures Changed(Image(s.bits, s.data, dinodes), Image(t.bits, t.data, dinodes), pl, a, b)
  {
  }

  /** What two operations of one transaction log covers what they change together. */
  lemma ChangedBoth(a: Image, b: Image, c: Image, pl: Places, first: set<nat>, second: set<nat>)
    requires Changed(a, b, pl, {}, first) && Changed(b, c, pl, {}, second)
    ensures Changed(a, c, pl, {}, first + second)
  {
    forall x | 0 <= x < |a.data| && c.data[x] != a.data[x] ensures x in first + second {
      assert b.data[x] != a.data[x] || c.data[x] != b.data[x];
    }
    forall x | 0 <= x < |a.bits| && c.bits[x] != a.bits[x] ensures BBlock(pl.bmapstart, x) in first + second {
      assert b.bits[x] != a.bits[x] || c.bits[x] != b.bits[x];
    }
    forall j | 0 <= j < |a.dinodes| && c.dinodes[j] != a.dinodes[j] ensures IBlock(pl.inodestart, j) in first + second {
      assert b.dinodes[j] != a.dinodes[j] || c.dinodes[j] != b.dinodes[j];
    }
  }
}
