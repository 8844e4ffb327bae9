// 32-bit words, disk blocks as byte strings, and the little-endian words that
// programs overlay on bytes (log header, indirect block, inode).
module Bytes {

  const BSIZE: int := 512
  const WORDS: int := 128          // BSIZE / sizeof(uint)
  const TWO32: int := 0x1_0000_0000
  const MAXOPBLOCKS: nat := 10     // param.h: most blocks one FS operation writes

  type Byte = x: int | 0 <= x < 256
  type Word32 = x: int | 0 <= x < 0x1_0000_0000
  type Block = b: seq<Byte> | |b| == 512 witness seq(512, _ => 0)

  function ZeroBlock(): Block {
    seq(512, _ => 0)
  }

  // The uint at byte p.
  function U32(s: seq<Byte>, p: nat): Word32
    requires p + 4 <= |s|
  {
    s[p] as int + 0x100 * s[p + 1] as int + 0x1_0000 * s[p + 2] as int + 0x100_0000 * s[p + 3] as int
  }

  // The i-th uint of a block.
  function Word(b: Block, i: nat): Word32
    requires i < WORDS
  {
    U32(b, 4 * i)
  }

  // The block after a store of v to its i-th uint.
  function SetWord(b: Block, i: nat, v: Word32): (r: Block)
    requires i < WORDS
  {
    b[4 * i := v % 0x100][4 * i + 1 := v / 0x100 % 0x100]
     [4 * i + 2 := v / 0x1_0000 % 0x100][4 * i + 3 := v / 0x100_0000]
  }

  lemma BytesOfWord(v: Word32)
    ensures v % 0x100 + 0x100 * (v / 0x100 % 0x100) + 0x1_0000 * (v / 0x1_0000 % 0x100)
            + 0x100_0000 * (v / 0x100_0000) == v
  {
    assert v / 0x1_0000 == v / 0x100 / 0x100;
    assert v / 0x100_0000 == v / 0x1_0000 / 0x100;
  }

  // A stored word is read back, and no other word changes.
  lemma WordOfSetWord(b: Block, i: nat, v: Word32, j: nat)
    requires i < WORDS && j < WORDS
    ensures Word(SetWord(b, i, v), j) == if j == i then v else Word(b, j)
  {
    BytesOfWord(v);
  }

  lemma WordOfZeroBlock(i: nat)
    requires i < WORDS
    ensures Word(ZeroBlock(), i) == 0
  {
  }
}
