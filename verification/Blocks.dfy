/** Disk blocks: BSIZE bytes, read either as bytes or as little-endian 32-bit words
    (fs.h, types.h).  The log header and the indirect blocks are words; file data is bytes. */
module Blocks {
  import opened Common

  const BSIZE: nat := 512
  const WORDS: nat := 128

  type Block = b: seq<byte> | |b| == 512 witness seq(512, _ => 0)

  function Zero(): Block { seq(512, _ => 0) }

  /** The i-th 32-bit word of a block, least significant byte first. */
  function Word(b: Block, i: nat): word
    requires i < WORDS
  {
    var x: int, y: int, z: int, w: int := b[4 * i], b[4 * i + 1], b[4 * i + 2], b[4 * i + 3];
    x + 0x100 * y + 0x1_0000 * z + 0x100_0000 * w
  }

  /** Store v into the i-th word of a block. */
  function SetWord(b: Block, i: nat, v: word): Block
    requires i < WORDS
  {
    b[4 * i := v % 0x100][4 * i + 1 := v / 0x100 % 0x100][4 * i + 2 := v / 0x1_0000 % 0x100]
     [4 * i + 3 := v / 0x100_0000]
  }

  lemma {:induction false} FourBytes(v: word)
    ensures v ==
      v % 0x100 + 0x100 * (v / 0x100 % 0x100) + 0x1_0000 * (v / 0x1_0000 % 0x100) + 0x100_0000 * (v / 0x100_0000)
  {
    assert v / 0x1_0000 == v / 0x100 / 0x100 && v / 0x100_0000 == v / 0x1_0000 / 0x100;
  }

  /** A stored word reads back, and no other word of the block changes. */
  lemma {:induction false} SetWordReads(b: Block, i: nat, v: word, j: nat)
    requires i < WORDS && j < WORDS
    ensures Word(SetWord(b, i, v), j) == if i == j then v else Word(b, j)
  {
    FourBytes(v);
  }

  lemma {:induction false} ZeroWords(i: nat)
    requires i < WORDS
    ensures Word(Zero(), i) == 0
  {
  }

  /** Store ws into consecutive words starting at word `at`. */
  function SetWords(b: Block, at: nat, ws: seq<word>): Block
    requires at + |ws| <= WORDS
  {
    if ws == [] then b
    else SetWord(SetWords(b, at, ws[..|ws| - 1]), at + |ws| - 1, ws[|ws| - 1])
  }

  lemma {:induction false} SetWordsReads(b: Block, at: nat, ws: seq<word>, j: nat)
    requires at + |ws| <= WORDS && j < WORDS
    ensures Word(SetWords(b, at, ws), j) == if at <= j < at + |ws| then ws[j - at] else Word(b, j)
  {
    if ws != [] {
      var init := ws[..|ws| - 1];
      SetWordReads(SetWords(b, at, init), at + |init|, ws[|ws| - 1], j);
      SetWordsReads(b, at, init, j);
    }
  }
}
