/** Disk blocks as byte sequences, and the little-endian 32-bit words the kernel overlays on them
    (the log header and the indirect blocks are read through `uint*`/`int*` casts). */
module Blocks {
  const BSIZE := 512
  const WORDS := 128
  const UINT := 0x1_0000_0000

  function Min(a: nat, b: nat): nat { if a < b then a else b }

  type Byte = x: int | 0 <= x < 256
  type Uint = x: int | 0 <= x < UINT
  type Block = b: seq<Byte> | |b| == BSIZE witness ZeroBlock()

  function ZeroBlock(): (b: seq<Byte>)
    ensures |b| == BSIZE
  {
    seq(BSIZE, _ => 0)
  }

  // The i-th word of a block: `((uint*)bp->data)[i]`.
  function Word(b: Block, i: nat): Uint
    requires i < WORDS
  {
    var b0: int, b1: int, b2: int, b3: int := b[4 * i], b[4 * i + 1], b[4 * i + 2], b[4 * i + 3];
    b0 + 0x100 * b1 + 0x1_0000 * b2 + 0x100_0000 * b3
  }

  // `((uint*)bp->data)[i] = w`.
  function PutWord(b: Block, i: nat, w: Uint): Block
    requires i < WORDS
  {
    b[4 * i := w % 0x100]
     [4 * i + 1 := (w / 0x100) % 0x100]
     [4 * i + 2 := (w / 0x1_0000) % 0x100]
     [4 * i + 3 := w / 0x100_0000]
  }

  // Little-endian, as mkfs and the processor store it.
  lemma WordBytes(b: Block, i: nat)
    requires i < WORDS
    ensures var w := Word(b, i);
      && b[4 * i] == w % 256 && b[4 * i + 1] == w / 256 % 256
      && b[4 * i + 2] == w / 256 / 256 % 256 && b[4 * i + 3] == w / 256 / 256 / 256
  {
    var b0: int, b1: int, b2: int, b3: int := b[4 * i], b[4 * i + 1], b[4 * i + 2], b[4 * i + 3];
    var h2 := b2 + 256 * b3;
    var h1 := b1 + 256 * h2;
    assert Word(b, i) == b0 + 256 * h1;
    LowByte(b[4 * i], h1);
    LowByte(b[4 * i + 1], h2);
    LowByte(b[4 * i + 2], b[4 * i + 3]);
  }

  lemma LowByte(b: Byte, h: nat)
    ensures var x: int := b; (x + 256 * h) % 256 == b && (x + 256 * h) / 256 == h
  {
  }

  lemma WordDigits(w: Uint)
    ensures w / 0x100_0000 < 0x100
    ensures w == w % 0x100 + 0x100 * ((w / 0x100) % 0x100) + 0x1_0000 * ((w / 0x1_0000) % 0x100)
              + 0x100_0000 * (w / 0x100_0000)
  {
    var w1 := w / 0x100;
    var w2 := w1 / 0x100;
    assert w2 == w / 0x1_0000;
    assert w2 / 0x100 == w / 0x100_0000;
  }

  // Storing a word changes that word and no other.
  lemma PutWordReads(b: Block, i: nat, w: Uint, j: nat)
    requires i < WORDS && j < WORDS
    ensures Word(PutWord(b, i, w), j) == if j == i then w else Word(b, j)
  {
    WordDigits(w);
  }

  lemma ZeroWords(j: nat)
    requires j < WORDS
    ensures Word(ZeroBlock(), j) == 0
  {
  }
}
