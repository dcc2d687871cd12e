/** Disk blocks as bytes, and the little-endian 32-bit words stored in them.
    The log header and the indirect blocks are arrays of such words. */
module Blocks {

  const BSIZE := 512
  const NWORDS := 128
  const WORD_LIMIT := 0x1_0000_0000

  type Byte = x: int | 0 <= x < 256
  type Word = x: int | 0 <= x < WORD_LIMIT

  type Block = b: seq<Byte> | |b| == BSIZE witness seq(BSIZE, _ => 0)

  /** The blocks of a disk. */
  type Image = seq<Block>

  const ZeroBlock: Block := seq(BSIZE, _ => 0)

  function LittleEndian(b0: int, b1: int, b2: int, b3: int): int {
    b0 + 0x100 * b1 + 0x1_0000 * b2 + 0x100_0000 * b3
  }

  /** The i-th 32-bit word of a block. */
  function GetWord(b: Block, i: nat): Word
    requires i < NWORDS
  {
    LittleEndian(b[4 * i], b[4 * i + 1], b[4 * i + 2], b[4 * i + 3])
  }

  /** A word is made of its four bytes. */
  lemma FourBytes(w: Word)
    ensures var q1 := w / 0x100;
            var q2 := q1 / 0x100;
            var q3 := q2 / 0x100;
            && 0 <= q1 < 0x100_0000 && 0 <= q2 < 0x1_0000 && 0 <= q3 < 0x100
            && LittleEndian(w % 0x100, q1 % 0x100, q2 % 0x100, q3) == w
  {
    var q1 := w / 0x100;
    assert w == 0x100 * q1 + w % 0x100;
    var q2 := q1 / 0x100;
    assert q1 == 0x100 * q2 + q1 % 0x100;
    var q3 := q2 / 0x100;
    assert q2 == 0x100 * q3 + q2 % 0x100;
  }

  /** The block with its i-th word replaced: reading it back gives w, every other word is as it was. */
  function SetWord(b: Block, i: nat, w: Word): (r: Block)
    requires i < NWORDS
    ensures GetWord(r, i) == w
    ensures forall j: nat :: j < NWORDS && j != i ==> GetWord(r, j) == GetWord(b, j)
  {
    FourBytes(w);
    var q1 := w / 0x100;
    var q2 := q1 / 0x100;
    b[4 * i := w % 0x100][4 * i + 1 := q1 % 0x100][4 * i + 2 := q2 % 0x100][4 * i + 3 := q2 / 0x100]
  }

  lemma ZeroBlockWords(i: nat)
    requires i < NWORDS
    ensures GetWord(ZeroBlock, i) == 0
  {
  }
}
