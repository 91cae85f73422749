/** Disk blocks as bytes, and the little-endian 32-bit words that C code reads
    from them through a `(uint*)` cast. */
module Bytes {

  const BSIZE: nat := 512
  const UINT_MAX: nat := 0xFFFF_FFFF

  type byte = x: int | 0 <= x < 256
  type uint = x: int | 0 <= x <= UINT_MAX
  type block = b: seq<byte> | |b| == BSIZE witness seq(BSIZE, _ => 0)

  const WORDS_PER_BLOCK: nat := 128

  function ZeroBlock(): block {
    seq(BSIZE, _ => 0)
  }

  /** Word `i` of a block. */
  function Word(b: block, i: nat): uint
    requires i < WORDS_PER_BLOCK
  {
    var b0: int, b1: int, b2: int, b3: int := b[4 * i], b[4 * i + 1], b[4 * i + 2], b[4 * i + 3];
    b0 + 0x100 * b1 + 0x1_0000 * b2 + 0x100_0000 * b3
  }

  lemma LittleEndian(w: uint)
    ensures w % 0x100 + 0x100 * (w / 0x100 % 0x100) + 0x1_0000 * (w / 0x1_0000 % 0x100) + 0x100_0000 * (w / 0x100_0000)
            == w
    ensures 0 <= w / 0x100_0000 < 0x100
  {
  }

  /** The block with word `i` set to `w`. */
  function PutWord(b: block, i: nat, w: uint): (r: block)
    requires i < WORDS_PER_BLOCK
    ensures Word(r, i) == w
    ensures forall j: nat :: j < WORDS_PER_BLOCK && j != i ==> Word(r, j) == Word(b, j)
  {
    LittleEndian(w);
    b[4 * i := w % 0x100]
     [4 * i + 1 := w / 0x100 % 0x100]
     [4 * i + 2 := w / 0x1_0000 % 0x100]
     [4 * i + 3 := w / 0x100_0000]
  }

  /** A zeroed block reads as zero words: what `balloc` relies on for new indirect blocks. */
  lemma ZeroBlockWords(i: nat)
    requires i < WORDS_PER_BLOCK
    ensures Word(ZeroBlock(), i) == 0
  {
  }
}
