/** Disk blocks as the kernel sees them: BSIZE bytes, also read and written as
    little-endian 32-bit words (log headers, indirect blocks) by casting the
    buffer to a `uint *`. */
module Blocks {
  const BSIZE: nat := 1024
  const WORDS: nat := 256      // BSIZE / sizeof(uint)
  const WORD_LIMIT: nat := 0x1_0000_0000

  type byte = x: int | 0 <= x < 256
  type Block = b: seq<byte> | |b| == BSIZE witness seq(BSIZE, _ => 0)

  function Zeroed(): (b: Block)
    ensures forall i :: 0 <= i < BSIZE ==> b[i] == 0
  {
    seq(BSIZE, _ => 0)
  }

  /** Word `i` of a block: four bytes, least significant first. */
  function GetWord(b: Block, i: nat): (w: nat)
    requires i < WORDS
    ensures w < WORD_LIMIT
  {
    b[4 * i] as int + 256 * (b[4 * i + 1] as int) + 65536 * (b[4 * i + 2] as int) + 16777216 * (b[4 * i + 3] as int)
  }

  function SetWord(b: Block, i: nat, w: nat): (r: Block)
    requires i < WORDS && w < WORD_LIMIT
  {
    b[4 * i := w % 256]
     [4 * i + 1 := w / 256 % 256]
     [4 * i + 2 := w / 65536 % 256]
     [4 * i + 3 := w / 16777216]
  }

  lemma {:induction false} BytesOfWord(w: nat)
    requires w < WORD_LIMIT
    ensures w % 256 + 256 * (w / 256 % 256) + 65536 * (w / 65536 % 256) + 16777216 * (w / 16777216) == w
  {
    assert w / 65536 == w / 256 / 256;
    assert w / 16777216 == w / 65536 / 256;
  }

  /** Storing a word makes it readable at its own index and leaves every other
      word as it was. */
  lemma {:induction false} GetAfterSet(b: Block, i: nat, w: nat, j: nat)
    requires i < WORDS && j < WORDS && w < WORD_LIMIT
    ensures GetWord(SetWord(b, i, w), j) == if i == j then w else GetWord(b, j)
  {
    BytesOfWord(w);
  }

  lemma {:induction false} ZeroedWords(i: nat)
    requires i < WORDS
    ensures GetWord(Zeroed(), i) == 0
  {
  }
}
