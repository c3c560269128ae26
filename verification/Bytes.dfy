/** Disk blocks as byte sequences, with the two ways fs.c looks inside one:
    as an array of bits (a bitmap block) and as an array of little-endian
    32-bit words (an indirect block). */
module Bytes {
  import opened Prelude

  type uint32 = x: int | 0 <= x < 0x1_0000_0000

  const BSIZE: nat := 512
  const BPB: nat := 4096
  const NINDIRECT: nat := 128

  type Block = b: seq<byte> | |b| == BSIZE witness seq(BSIZE, _ => 0)

  function ZeroBlock(): (b: Block)
    ensures forall k :: 0 <= k < BSIZE ==> b[k] == 0
  {
    seq(BSIZE, _ => 0)
  }

  function Min(a: int, b: int): int { if a < b then a else b }

  function Max(a: int, b: int): int { if a < b then b else a }

  /** off + n < off, on 32-bit unsigned integers */
  predicate SumWraps(off: uint32, n: uint32): (r: bool)
    ensures r <==> off + n >= 0x1_0000_0000
  {
    (off + n) % 0x1_0000_0000 < off
  }

  // ---------- bits ----------

  function Pow2(w: nat): (p: nat)
    ensures p > 0
  {
    if w == 0 then 1 else 2 * Pow2(w - 1)
  }

  /** b & (1 << k) is not zero */
  predicate TestBit(b: nat, k: nat) {
    if k == 0 then b % 2 == 1 else TestBit(b / 2, k - 1)
  }

  /** b | (1 << k), for a b of w bits */
  function SetBit(b: nat, k: nat, w: nat): (r: nat)
    requires b < Pow2(w) && k < w
    ensures r < Pow2(w)
    ensures TestBit(r, k)
    ensures forall j: nat :: j != k ==> TestBit(r, j) == TestBit(b, j)
  {
    if k == 0 then b - b % 2 + 1 else 2 * SetBit(b / 2, k - 1, w - 1) + b % 2
  }

  /** b & ~(1 << k), for a b of w bits */
  function ClearBit(b: nat, k: nat, w: nat): (r: nat)
    requires b < Pow2(w) && k < w
    ensures r < Pow2(w)
    ensures !TestBit(r, k)
    ensures forall j: nat :: j != k ==> TestBit(r, j) == TestBit(b, j)
  {
    if k == 0 then b - b % 2 else 2 * ClearBit(b / 2, k - 1, w - 1) + b % 2
  }

  lemma ZeroHasNoBits(k: nat)
    ensures !TestBit(0, k)
  {
  }

  lemma ByteWidth()
    ensures Pow2(8) == 256
  {
    assert Pow2(4) == 16;
  }

  /** Bit bi of a bitmap block: data[bi/8] & (1 << (bi % 8)). */
  predicate BitAt(d: Block, bi: nat)
    requires bi < BPB
  {
    TestBit(d[bi / 8], bi % 8)
  }

  /** data[bi/8] |= 1 << (bi % 8) */
  function WithBit(d: Block, bi: nat): (r: Block)
    requires bi < BPB
    ensures BitAt(r, bi)
    ensures forall j: nat :: j < BPB && j != bi ==> BitAt(r, j) == BitAt(d, j)
  {
    ByteWidth();
    d[bi / 8 := SetBit(d[bi / 8], bi % 8, 8)]
  }

  /** data[bi/8] &= ~(1 << (bi % 8)) */
  function WithoutBit(d: Block, bi: nat): (r: Block)
    requires bi < BPB
    ensures !BitAt(r, bi)
    ensures forall j: nat :: j < BPB && j != bi ==> BitAt(r, j) == BitAt(d, j)
  {
    ByteWidth();
    d[bi / 8 := ClearBit(d[bi / 8], bi % 8, 8)]
  }

  // ---------- words ----------

  /** a[j], where a = (uint*)data on a little-endian machine */
  function Word(d: Block, j: nat): (w: uint32)
    requires j < NINDIRECT
  {
    var b0: int, b1: int, b2: int, b3: int := d[4 * j], d[4 * j + 1], d[4 * j + 2], d[4 * j + 3];
    b0 + 0x100 * b1 + 0x1_0000 * b2 + 0x100_0000 * b3
  }

  /** a[j] = w */
  function WithWord(d: Block, j: nat, w: uint32): (r: Block)
    requires j < NINDIRECT
    ensures Word(r, j) == w
    ensures forall i: nat :: i < NINDIRECT && i != j ==> Word(r, i) == Word(d, i)
  {
    d[4 * j := w % 0x100][4 * j + 1 := (w / 0x100) % 0x100]
     [4 * j + 2 := (w / 0x1_0000) % 0x100][4 * j + 3 := w / 0x100_0000]
  }
}
