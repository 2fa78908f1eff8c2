/** Disk blocks as bytes (fs.h), and the little-endian 32-bit words the kernel reads out of them
    by casting a block's data to an integer array. */
module Blocks {
  const BSIZE: nat := 512

  type Byte = x: int | 0 <= x < 256
  type Word = x: int | 0 <= x < 0x1_0000_0000
  type Block = b: seq<Byte> | |b| == 512 witness seq(512, i => 0)
  type Disk = seq<Block>

  function Zeroes(n: nat): seq<Byte> {
    seq(n, i => 0)
  }

  const ZERO_BLOCK: Block := Zeroes(512)

  function WordOf(b0: Byte, b1: Byte, b2: Byte, b3: Byte): Word {
    b0 + 0x100 * b1 + 0x1_0000 * b2 + 0x100_0000 * b3
  }

  /** The i-th word of a block seen as an array of 128 words. */
  function GetWord(b: Block, i: nat): Word
    requires i < 128
  {
    WordOf(b[4 * i], b[4 * i + 1], b[4 * i + 2], b[4 * i + 3])
  }

  /** The block after storing w in its i-th word. */
  function PutWord(b: Block, i: nat, w: Word): (r: Block)
    requires i < 128
    ensures GetWord(r, i) == w
    ensures forall j | 0 <= j < 128 && j != i :: GetWord(r, j) == GetWord(b, j)
  {
    WordBytes(w);
    b[4 * i := w % 0x100][4 * i + 1 := w / 0x100 % 0x100]
    [4 * i + 2 := w / 0x100 / 0x100 % 0x100][4 * i + 3 := w / 0x100 / 0x100 / 0x100]
  }

  lemma WordBytes(w: Word)
    ensures w / 0x100 / 0x100 / 0x100 < 0x100
    ensures WordOf(w % 0x100, w / 0x100 % 0x100, w / 0x100 / 0x100 % 0x100, w / 0x100 / 0x100 / 0x100) == w
  {
    var q1 := w / 0x100;
    var q2 := q1 / 0x100;
    var q3 := q2 / 0x100;
    assert w == 0x100 * q1 + w % 0x100 && q1 == 0x100 * q2 + q1 % 0x100 && q2 == 0x100 * q3 + q2 % 0x100;
  }

  lemma ZeroBlockWords(i: nat)
    requires i < 128
    ensures GetWord(ZERO_BLOCK, i) == 0
  {
  }
}
