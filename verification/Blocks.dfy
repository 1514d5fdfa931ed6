/** Disk blocks: BSIZE bytes, also read as little-endian 32-bit words (fs.h). */
module Blocks {

  const BSIZE: nat := 512
  const WORDS: nat := 128
  const UINT: nat := 0x1_0000_0000

  type byte = x: int | 0 <= x < 256
  type uint32 = x: int | 0 <= x < UINT

  type Block = b: seq<byte> | |b| == BSIZE witness seq(BSIZE, _ => 0)

  const ZERO_BLOCK: Block := seq(BSIZE, _ => 0)

  /** The i-th uint of a block. */
  function Word(b: Block, i: nat): (w: uint32)
    requires i < WORDS
  {
    var b0: int, b1: int, b2: int, b3: int := b[4 * i], b[4 * i + 1], b[4 * i + 2], b[4 * i + 3];
    b0 + 0x100 * b1 + 0x1_0000 * b2 + 0x100_0000 * b3
  }

  /** The block after storing uint w at index i. */
  function SetWord(b: Block, i: nat, w: uint32): (r: Block)
    requires i < WORDS
  {
    b[4 * i := w % 0x100]
     [4 * i + 1 := (w / 0x100) % 0x100]
     [4 * i + 2 := (w / 0x1_0000) % 0x100]
     [4 * i + 3 := w / 0x100_0000]
  }

  lemma SplitWord(w: uint32)
    ensures w / 0x100_0000 < 0x100
    ensures w == w % 0x100 + 0x100 * ((w / 0x100) % 0x100) + 0x1_0000 * ((w / 0x1_0000) % 0x100) +
                 0x100_0000 * (w / 0x100_0000)
  {
    var a, b, c := w / 0x100, w / 0x1_0000, w / 0x100_0000;
    assert w == w % 0x100 + 0x100 * a;
    assert b == a / 0x100;
    assert a == a % 0x100 + 0x100 * b;
    assert c == b / 0x100;
    assert b == b % 0x100 + 0x100 * c;
  }

  /** Reading back after a store: the stored word, and every other word as before. */
  lemma WordAfterSet(b: Block, i: nat, w: uint32, j: nat)
    requires i < WORDS && j < WORDS
    ensures Word(SetWord(b, i, w), j) == if i == j then w else Word(b, j)
  {
    SplitWord(w);
  }

  predicate IsZero(b: Block) {
    forall p :: 0 <= p < BSIZE ==> b[p] == 0
  }

  /** A block of zero bytes holds only zero words. */
  lemma ZeroWords(b: Block, i: nat)
    requires i < WORDS && IsZero(b)
    ensures Word(b, i) == 0
  {
    assert b[4 * i] == b[4 * i + 1] == b[4 * i + 2] == b[4 * i + 3] == 0;
  }
}
