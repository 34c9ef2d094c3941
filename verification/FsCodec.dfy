/** An encoding of file data, inodes and the free map into disk blocks, as words: what CrashFiles asks of one is met. */
module FsCodec {
  import opened FsBlocks
  import opened FsOwner
  import opened CrashFiles
  import CrashLog

  /** struct dinode is 16 words: type and major, minor and nlink, size, and the 13 addresses. */
  const INODE_WORDS := 16

  function Half(x: int): (h: nat)
    ensures h < 0x1_0000
  {
    x % 0x1_0000
  }

  function InodeWord(f: Inode, w: nat): int {
    if w == 0 then Half(f.kind)
    else if w == 1 then Half(f.nlink) * 0x1_0000
    else if w == 2 then f.size
    else if w - 3 < |f.addrs| then f.addrs[w - 3]
    else 0
  }

  /** The number whose binary digits, lowest first, are the `n` bits from `i` on. */
  function BitsWord(x: seq<bool>, i: nat, n: nat): nat
    decreases n
  {
    if n == 0 then 0 else (if i < |x| && x[i] then 1 else 0) + 2 * BitsWord(x, i + 1, n - 1)
  }

  function DataBlock(b: Block): (r: CrashLog.Block) {
    seq(CrashLog.WORDS, j requires 0 <= j < CrashLog.WORDS => GetWord(b, j))
  }

  function InodesBlock(x: seq<Inode>): (r: CrashLog.Block) {
    seq(CrashLog.WORDS, w requires 0 <= w < CrashLog.WORDS =>
      if w / INODE_WORDS < |x| then InodeWord(x[w / INODE_WORDS], w % INODE_WORDS) else 0)
  }

  function FreeMapBlock(x: seq<bool>): (r: CrashLog.Block) {
    seq(CrashLog.WORDS, w requires 0 <= w < CrashLog.WORDS => BitsWord(x, 32 * w, 32))
  }

  function Words(): Codec {
    Codec(FreeMapBlock, InodesBlock, DataBlock)
  }

  // ---------------------------------------------------------------- nothing gets lost

  lemma DataBack(x: Block, y: Block)
    requires DataBlock(x) == DataBlock(y)
    ensures x == y
  {
    forall k | 0 <= k < BSIZE
      ensures x[k] == y[k]
    {
      assert DataBlock(x)[k / 4] == DataBlock(y)[k / 4];
      assert k == 4 * (k / 4) + k % 4;
      WordBytes(x, y, k / 4, k % 4);
    }
  }

  lemma LowByte(a: byte, x: nat, e: byte, y: nat)
    requires a + 0x100 * x == e + 0x100 * y
    ensures a == e && x == y
  {
  }

  lemma BytesBack(a: byte, b: byte, c: byte, d: byte, e: byte, f: byte, g: byte, h: byte)
    requires FromBytes(a, b, c, d) == FromBytes(e, f, g, h)
    ensures a == e && b == f && c == g && d == h
  {
    LowByte(a, b + 0x100 * (c + 0x100 * d), e, f + 0x100 * (g + 0x100 * h));
    LowByte(b, c + 0x100 * d, f, g + 0x100 * h);
    LowByte(c, d, g, h);
  }

  lemma WordBytes(x: Block, y: Block, j: nat, r: nat)
    requires j < NINDIRECT && r < 4 && GetWord(x, j) == GetWord(y, j)
    ensures x[4 * j + r] == y[4 * j + r]
  {
    hide FromBytes;
    var k := 4 * j;
    BytesBack(x[k], x[k + 1], x[k + 2], x[k + 3], y[k], y[k + 1], y[k + 2], y[k + 3]);
  }

  lemma InodeBack(f: Inode, g: Inode)
    requires StorableInode(f) && StorableInode(g) && forall w :: 0 <= w < INODE_WORDS ==> InodeWord(f, w) == InodeWord(g, w)
    ensures f == g
  {
    assert InodeWord(f, 0) == InodeWord(g, 0) && InodeWord(f, 1) == InodeWord(g, 1) && InodeWord(f, 2) == InodeWord(g, 2);
    forall k | 0 <= k < NSLOT
      ensures f.addrs[k] == g.addrs[k]
    {
      assert InodeWord(f, k + 3) == InodeWord(g, k + 3);
    }
  }

  lemma InodesBack(x: seq<Inode>, y: seq<Inode>)
    requires |x| == |y| <= IPB && Storable(x) && Storable(y) && InodesBlock(x) == InodesBlock(y)
    ensures x == y
  {
    forall j | 0 <= j < |x|
      ensures x[j] == y[j]
    {
      forall w | 0 <= w < INODE_WORDS
        ensures InodeWord(x[j], w) == InodeWord(y[j], w)
      {
        var k := INODE_WORDS * j + w;
        assert k / INODE_WORDS == j && k % INODE_WORDS == w;
        assert InodesBlock(x)[k] == InodesBlock(y)[k];
      }
      InodeBack(x[j], y[j]);
    }
  }

  lemma {:induction false} BitsBack(x: seq<bool>, y: seq<bool>, i: nat, n: nat)
    requires |x| == |y| && BitsWord(x, i, n) == BitsWord(y, i, n)
    ensures forall k :: i <= k < i + n && k < |x| ==> x[k] == y[k]
    decreases n
  {
    if n > 0 {
      BitsBack(x, y, i + 1, n - 1);
    }
  }

  lemma FreeMapBack(x: seq<bool>, y: seq<bool>)
    requires |x| == |y| <= BPB && FreeMapBlock(x) == FreeMapBlock(y)
    ensures x == y
  {
    hide BitsWord;
    forall k | 0 <= k < |x|
      ensures x[k] == y[k]
    {
      assert FreeMapBlock(x)[k / 32] == FreeMapBlock(y)[k / 32];
      BitsBack(x, y, 32 * (k / 32), 32);
    }
  }

  /** The words keep apart whatever an image can hold. */
  lemma WordsFaithful()
    ensures Faithful(Words())
  {
    hide DataBlock, InodesBlock, FreeMapBlock, Storable;
    forall x, y | |x| == |y| <= BPB && FreeMapBlock(x) == FreeMapBlock(y)
      ensures x == y
    {
      FreeMapBack(x, y);
    }
    forall x, y | |x| == |y| <= IPB && Storable(x) && Storable(y) && InodesBlock(x) == InodesBlock(y)
      ensures x == y
    {
      InodesBack(x, y);
    }
    forall x, y | DataBlock(x) == DataBlock(y)
      ensures x == y
    {
      DataBack(x, y);
    }
  }

  // ---------------------------------------------------------------- the words fit

  function Pow2(n: nat): nat {
    if n == 0 then 1 else 2 * Pow2(n - 1)
  }

  lemma {:induction false} BitsFit(x: seq<bool>, i: nat, n: nat)
    ensures BitsWord(x, i, n) < Pow2(n)
    decreases n
  {
    if n > 0 {
      BitsFit(x, i + 1, n - 1);
    }
  }

  lemma Pow2Byte(n: nat)
    ensures Pow2(n + 8) == 0x100 * Pow2(n)
  {
    assert Pow2(n + 4) == 2 * Pow2(n + 3) && Pow2(n + 3) == 2 * Pow2(n + 2) && Pow2(n + 2) == 2 * Pow2(n + 1);
    assert Pow2(n + 8) == 2 * Pow2(n + 7) && Pow2(n + 7) == 2 * Pow2(n + 6) && Pow2(n + 6) == 2 * Pow2(n + 5);
  }

  lemma BitsFitWord(x: seq<bool>, i: nat)
    ensures BitsWord(x, i, 32) < TWO32
  {
    assert Pow2(0) == 1;
    hide Pow2, BitsWord;
    BitsFit(x, i, 32);
    Pow2Byte(0);
    Pow2Byte(8);
    Pow2Byte(16);
    Pow2Byte(24);
  }

  /** And each of them is a 32-bit word. */
  lemma WordsFit(x: seq<bool>, y: seq<Inode>, b: Block, w: nat)
    requires Storable(y) && w < CrashLog.WORDS
    ensures 0 <= FreeMapBlock(x)[w] < TWO32 && 0 <= InodesBlock(y)[w] < TWO32 && 0 <= DataBlock(b)[w] < TWO32
  {
    hide BitsWord;
    BitsFitWord(x, 32 * w);
  }
}
