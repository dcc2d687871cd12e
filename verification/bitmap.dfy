/** The free bitmap: one bit per disk block, 1 for blocks in use. */
module Bitmap {

  const BPB := 512 * 8

  /** A byte of the bitmap, as its eight bits, lowest first. */
  type Bits8 = x: seq<bool> | |x| == 8 witness [false, false, false, false, false, false, false, false]

  const NO_BITS: Bits8 := [false, false, false, false, false, false, false, false]

  predicate Used(bits: seq<Bits8>, b: nat)
    requires b / 8 < |bits|
  {
    bits[b / 8][b % 8]
  }

  /** bits[b/8] |= 1 << b%8 */
  function Marked(bits: seq<Bits8>, b: nat): seq<Bits8>
    requires b / 8 < |bits|
  {
    bits[b / 8 := bits[b / 8][b % 8 := true]]
  }

  /** bits[b/8] &= ~(1 << b%8) */
  function Cleared(bits: seq<Bits8>, b: nat): seq<Bits8>
    requires b / 8 < |bits|
  {
    bits[b / 8 := bits[b / 8][b % 8 := false]]
  }

  lemma OneBitAt(bits: seq<Bits8>, b: nat, c: nat)
    requires b / 8 < |bits| && c / 8 < |bits|
    ensures Used(Marked(bits, b), c) == (c == b || Used(bits, c))
    ensures Used(Cleared(bits, b), c) == (c != b && Used(bits, c))
  {
    assert c == 8 * (c / 8) + c % 8 && b == 8 * (b / 8) + b % 8;
  }

  /** Marking or clearing a block changes its own bit and no other. */
  lemma OneBit(bits: seq<Bits8>, b: nat)
    requires b / 8 < |bits|
    ensures forall c: nat :: c / 8 < |bits| ==> Used(Marked(bits, b), c) == (c == b || Used(bits, c))
    ensures forall c: nat :: c / 8 < |bits| ==> Used(Cleared(bits, b), c) == (c != b && Used(bits, c))
  {
    hide *;
    MarkedLength(bits, b);
    forall c: nat | c / 8 < |bits|
      ensures Used(Marked(bits, b), c) == (c == b || Used(bits, c))
      ensures Used(Cleared(bits, b), c) == (c != b && Used(bits, c)) {
      OneBitAt(bits, b, c);
    }
  }

  lemma MarkedLength(bits: seq<Bits8>, b: nat)
    requires b / 8 < |bits|
    ensures |Marked(bits, b)| == |Cleared(bits, b)| == |bits|
  {
  }

  lemma Remainder(x: nat, k: nat, r: nat)
    requires x == 8 * k + r && r < 8
    ensures x / 8 == k && x % 8 == r
  {
  }

  /** Within one bitmap block, the bit position modulo 8 is that of the disk block. */
  lemma BitInBlock(bits: seq<Bits8>, b: nat, bi: nat)
    requires b % BPB == 0 && (b + bi) / 8 < |bits|
    ensures Used(bits, b + bi) == bits[(b + bi) / 8][bi % 8]
  {
    var q := b / BPB;
    Remainder(b + bi, 512 * q + bi / 8, bi % 8);
  }

  lemma InBitmap(b: nat, n: nat)
    requires b < 8 * n
    ensures b / 8 < n
  {
  }

  /** The inner loop of the scan: the first free block that one bitmap block records, or -1. */
  method FreeInBlock(bits: seq<Bits8>, size: nat, b: nat) returns (r: int)
    requires size <= 8 * |bits| && b % BPB == 0 && b < size
    ensures r == -1 || (b <= r < size && !Used(bits, r))
    ensures forall c: nat :: b <= c < (if r == -1 then b + BPB else r) && c < size ==> Used(bits, c)
  {
    hide Used;
    var bi := 0;
    while bi < BPB && b + bi < size
      invariant 0 <= bi <= BPB && b + bi <= size && forall c: nat :: b <= c < b + bi ==> Used(bits, c)
    {
      InBitmap(b + bi, |bits|);
      BitInBlock(bits, b, bi);
      if !bits[(b + bi) / 8][bi % 8] {
        return b + bi;
      }
      bi := bi + 1;
    }
    return -1;
  }

  /** Scan the bitmap, block by block and bit by bit, for the first free block; -1 if there is none. */
  method FirstFree(bits: seq<Bits8>, size: nat) returns (r: int)
    requires size <= 8 * |bits|
    ensures r == -1 || (0 <= r < size && !Used(bits, r))
    ensures forall c: nat :: c < (if r == -1 then size else r) ==> Used(bits, c)
  {
    hide Used;
    var b := 0;
    while b < size
      invariant 0 <= b && b % BPB == 0 && forall c: nat :: c < b && c < size ==> Used(bits, c)
    {
      r := FreeInBlock(bits, size, b);
      if r != -1 {
        return;
      }
      b := b + BPB;
    }
    return -1;
  }
}
