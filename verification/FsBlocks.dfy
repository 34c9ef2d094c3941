/**
 Disk blocks as bytes: little-endian words inside a block (indirect blocks) and bits inside
 the bytes of the free map.
 */
module FsBlocks {

  const BSIZE := 512
  const NDIRECT := 12
  const NINDIRECT := 128
  const MAXFILE := 140
  /** Free-map bits in one block. */
  const BPB := 4096
  const TWO32 := 0x1_0000_0000

  type byte = x: int | 0 <= x < 256
  type Block = b: seq<byte> | |b| == BSIZE witness seq(BSIZE, _ => 0)

  function Zero(): Block {
    seq(BSIZE, _ => 0)
  }

  /** Inodes per block. */
  const IPB := 8

  /** Free-map block that holds block `b`'s bit. */
  function BBlock(bmapstart: nat, b: nat): nat {
    b / BPB + bmapstart
  }

  /** Inode block that holds inode `i`. */
  function IBlock(inodestart: nat, i: nat): nat {
    i / IPB + inodestart
  }

  // ---------------------------------------------------------------- words

  function FromBytes(a: byte, b: byte, c: byte, d: byte): (v: nat)
    ensures v < TWO32
  {
    a + 0x100 * b + 0x1_0000 * c + 0x100_0000 * d
  }

  /** Word `j` of a block, as the cast `((uint*)bp->data)[j]` reads it. */
  function GetWord(b: Block, j: nat): (v: nat)
    requires j < NINDIRECT
    ensures v < TWO32
  {
    FromBytes(b[4 * j], b[4 * j + 1], b[4 * j + 2], b[4 * j + 3])
  }

  function PutWord(b: Block, j: nat, v: nat): (r: Block)
    requires j < NINDIRECT && v < TWO32
  {
    b[4 * j := v % 0x100][4 * j + 1 := v / 0x100 % 0x100][4 * j + 2 := v / 0x1_0000 % 0x100][4 * j + 3 := v / 0x100_0000]
  }

  lemma WordRoundTrip(b: Block, j: nat, v: nat)
    requires j < NINDIRECT && v < TWO32
    ensures GetWord(PutWord(b, j, v), j) == v
    ensures var r: seq<int> := PutWord(b, j, v);
            r[4 * j] + 256 * r[4 * j + 1] + 256 * 256 * r[4 * j + 2] + 256 * 256 * 256 * r[4 * j + 3] == v
  {
    var q1, q2, q3 := v / 0x100, v / 0x1_0000, v / 0x100_0000;
    assert q2 == q1 / 0x100 && q3 == q2 / 0x100;
  }

  lemma WordFrame(b: Block, j: nat, v: nat, k: nat)
    requires j < NINDIRECT && v < TWO32 && k < NINDIRECT && k != j
    ensures GetWord(PutWord(b, j, v), k) == GetWord(b, k)
  {
  }

  lemma ZeroWords(j: nat)
    requires j < NINDIRECT
    ensures GetWord(Zero(), j) == 0
  {
  }

  // ---------------------------------------------------------------- bits

  /** 1 << i for 0 <= i < 8. */
  function Mask(i: nat): (m: bv8)
    requires i < 8
    ensures m == 1 << i
  {
    if i == 0 then 1 else if i == 1 then 2 else if i == 2 then 4 else if i == 3 then 8
    else if i == 4 then 16 else if i == 5 then 32 else if i == 6 then 64 else 128
  }

  /** balloc's `|= m` sets one free-map bit of the byte and no other. */
  lemma MaskSet(x: bv8, i: nat, j: nat)
    requires i < 8 && j < 8
    ensures (x | Mask(i)) & Mask(j) != 0 <==> i == j || x & Mask(j) != 0
  {
  }

  /** bfree's `&= ~m` clears one free-map bit of the byte and no other. */
  lemma MaskClear(x: bv8, i: nat, j: nat)
    requires i < 8 && j < 8
    ensures (x & !Mask(i)) & Mask(j) != 0 <==> i != j && x & Mask(j) != 0
  {
  }

  /** Bit `b` of a free map kept as bytes, the way bp->data[bi/8] & m reads it. */
  predicate MapBit(bytes: seq<bv8>, b: nat)
    requires b < 8 * |bytes|
  {
    bytes[b / 8] & Mask(b % 8) != 0
  }

  /** The bytes hold exactly these bits. */
  ghost predicate Holds(bytes: seq<bv8>, bits: seq<bool>) {
    |bits| == 8 * |bytes| && forall b :: 0 <= b < |bits| ==> (bits[b] <==> MapBit(bytes, b))
  }

  /** balloc's store marks the one block and keeps the bits of all others. */
  lemma MapSet(bytes: seq<bv8>, bits: seq<bool>, b: nat)
    requires Holds(bytes, bits) && b < |bits|
    ensures Holds(bytes[b / 8 := bytes[b / 8] | Mask(b % 8)], bits[b := true])
  {
    var bytes' := bytes[b / 8 := bytes[b / 8] | Mask(b % 8)];
    forall c | 0 <= c < |bits| ensures bits[b := true][c] <==> MapBit(bytes', c) {
      assert bits[c] <==> MapBit(bytes, c);
      if c / 8 == b / 8 {
        MaskSet(bytes[b / 8], b % 8, c % 8);
      }
    }
  }

  /** bfree's store frees the one block and keeps the bits of all others. */
  lemma MapClear(bytes: seq<bv8>, bits: seq<bool>, b: nat)
    requires Holds(bytes, bits) && b < |bits|
    ensures Holds(bytes[b / 8 := bytes[b / 8] & !Mask(b % 8)], bits[b := false])
  {
    var bytes' := bytes[b / 8 := bytes[b / 8] & !Mask(b % 8)];
    forall c | 0 <= c < |bits| ensures bits[b := false][c] <==> MapBit(bytes', c) {
      assert bits[c] <==> MapBit(bytes, c);
      if c / 8 == b / 8 {
        MaskClear(bytes[b / 8], b % 8, c % 8);
      }
    }
  }
}
