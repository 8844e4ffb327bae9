// On-disk formats of fs.h: the free bitmap and the inode blocks.
module FsLayout {
  import opened Bytes

  const BPB: int := 4096          // BSIZE * 8
  const IPB: int := 8             // BSIZE / sizeof(struct dinode)
  const NDIRECT: int := 12
  const NINDIRECT: int := 128
  const MAXFILE: int := 140
  const T_DEV: int := 3

  datatype SuperBlock = SuperBlock(size: nat, ninodes: nat, inodestart: nat, bmapstart: nat, datastart: nat) {
    // mkfs lays the disk out as boot, super, log, inodes, bitmap, data.
    ghost predicate Valid() {
      && 0 < inodestart
      && (forall i: nat | i < ninodes :: IBlock(i) < bmapstart)
      && (forall b: nat | b < size :: BBlock(b) < datastart)
      && bmapstart <= datastart <= size <= TWO32
    }

    function IBlock(i: nat): nat { inodestart + i / IPB }

    function BBlock(b: nat): nat { bmapstart + b / BPB }

    function NBitmap(): nat { (size + BPB - 1) / BPB }
  }

  // ---------- bitmap ----------

  // (x & (1 << k)) != 0
  predicate HasBit(x: nat, k: nat) {
    if k == 0 then x % 2 == 1 else HasBit(x / 2, k - 1)
  }

  // x | (1 << k) where bit k is clear, x & ~(1 << k) where it is set.
  function FlipBit(x: nat, k: nat): nat {
    if k == 0 then (if x % 2 == 1 then x - 1 else x + 1)
    else 2 * FlipBit(x / 2, k - 1) + x % 2
  }

  // The value change is that of adding or removing 1 << k.
  function Shl(k: nat): nat { if k == 0 then 1 else 2 * Shl(k - 1) }

  lemma {:induction false} FlipBitValue(x: nat, k: nat)
    ensures FlipBit(x, k) == if HasBit(x, k) then x - Shl(k) else x + Shl(k)
  {
    if k > 0 { FlipBitValue(x / 2, k - 1); }
  }

  lemma {:induction false} FlipBitAt(x: nat, k: nat, j: nat)
    ensures HasBit(FlipBit(x, k), j) == if j == k then !HasBit(x, j) else HasBit(x, j)
  {
    if k > 0 && j > 0 {
      FlipBitAt(x / 2, k - 1, j - 1);
      assert FlipBit(x, k) / 2 == FlipBit(x / 2, k - 1);
    } else if k == 0 && j > 0 {
      assert FlipBit(x, k) / 2 == x / 2;
    }
  }

  lemma {:induction false} FlipBitByte(x: nat, k: nat, n: nat)
    requires k < n && x < Shl(n)
    ensures FlipBit(x, k) < Shl(n)
  {
    var half := Shl(n - 1);
    assert Shl(n) == 2 * half;
    if k > 0 {
      assert x / 2 < half;
      FlipBitByte(x / 2, k - 1, n - 1);
    }
  }

  function FlipInByte(x: Byte, k: nat): (y: Byte)
    requires k < 8
    ensures y == FlipBit(x, k)
  {
    assert Shl(8) == 256 by { assert Shl(4) == 16; }
    FlipBitByte(x, k, 8);
    FlipBit(x, k)
  }

  // Bit bi of a bitmap block.
  predicate BitOf(data: Block, bi: nat)
    requires bi < BPB
  {
    HasBit(data[bi / 8], bi % 8)
  }

  function FlipOf(data: Block, bi: nat): Block
    requires bi < BPB
  {
    data[bi / 8 := FlipInByte(data[bi / 8], bi % 8)]
  }

  lemma FlipOfAt(data: Block, bi: nat, bj: nat)
    requires bi < BPB && bj < BPB
    ensures BitOf(FlipOf(data, bi), bj) == if bj == bi then !BitOf(data, bj) else BitOf(data, bj)
  {
    FlipBitAt(data[bi / 8], bi % 8, bj % 8);
    assert bi == 8 * (bi / 8) + bi % 8 && bj == 8 * (bj / 8) + bj % 8;
  }

  // ---------- on-disk inodes ----------

  // head packs type and major, links packs minor and nlink.
  datatype Inode = Inode(head: Word32, links: Word32, size: Word32, addrs: seq<Word32>) {
    predicate Valid() { |addrs| == NDIRECT + 1 }
    function Type(): nat { head % 0x1_0000 }
  }

  const WPI: int := 16            // words per struct dinode

  function Words(ino: Inode): (ws: seq<Word32>)
    requires ino.Valid()
    ensures |ws| == WPI
  {
    [ino.head, ino.links, ino.size] + ino.addrs
  }

  function Field(data: Block, k: nat, w: nat): Word32
    requires k < IPB && w < WPI
  {
    Word(data, WPI * k + w)
  }

  // The k-th inode of an inode block.
  function DecodeInode(data: Block, k: nat): (ino: Inode)
    requires k < IPB
    ensures ino.Valid()
  {
    Inode(Field(data, k, 0), Field(data, k, 1), Field(data, k, 2),
          seq(NDIRECT + 1, j requires 0 <= j <= NDIRECT => Field(data, k, 3 + j)))
  }

  // struct dinode: a short type at byte 0, a short nlink at byte 6, size at byte 8
  // and the addresses from byte 12 on, 64 bytes an inode.
  lemma InodeFormat(data: Block, k: nat)
    requires k < IPB
    ensures var p, ino := 64 * k, DecodeInode(data, k);
      && ino.Type() == data[p] as int + 0x100 * data[p + 1] as int
      && ino.links / 0x1_0000 == data[p + 6] as int + 0x100 * data[p + 7] as int
      && ino.size == U32(data, p + 8)
      && forall j | 0 <= j <= NDIRECT :: ino.addrs[j] == U32(data, p + 12 + 4 * j)
  {
    Halves(data, 64 * k);
    Halves(data, 64 * k + 4);
    assert 4 * (WPI * k) == 64 * k;
  }

  lemma Halves(data: Block, p: nat)
    requires p + 4 <= BSIZE
    ensures U32(data, p) % 0x1_0000 == data[p] as int + 0x100 * data[p + 1] as int
    ensures U32(data, p) / 0x1_0000 == data[p + 2] as int + 0x100 * data[p + 3] as int
  {
    Split(data[p] as int + 0x100 * data[p + 1] as int, data[p + 2] as int + 0x100 * data[p + 3] as int);
  }

  lemma Split(low: nat, high: nat)
    requires low < 0x1_0000
    ensures (low + 0x1_0000 * high) % 0x1_0000 == low && (low + 0x1_0000 * high) / 0x1_0000 == high
  {
  }

  // Inodes and bitmap bits lie one behind the other from their first block on.
  lemma LayoutDense(sb: SuperBlock, i: nat, b: nat)
    ensures BSIZE * sb.IBlock(i) + 64 * (i % IPB) == BSIZE * sb.inodestart + 64 * i
    ensures BPB * sb.BBlock(b) + b % BPB == BPB * sb.bmapstart + b
    ensures sb.size > 0 ==> sb.BBlock(sb.size - 1) + 1 == sb.bmapstart + sb.NBitmap()
  {
  }

  // The block after storing ws at word position at.
  function SetWords(data: Block, at: nat, ws: seq<Word32>): Block
    requires at + |ws| <= WORDS
  {
    if ws == [] then data
    else SetWord(SetWords(data, at, ws[..|ws| - 1]), at + |ws| - 1, ws[|ws| - 1])
  }

  lemma {:induction false} SetWordsAt(data: Block, at: nat, ws: seq<Word32>, j: nat)
    requires at + |ws| <= WORDS && j < WORDS
    ensures Word(SetWords(data, at, ws), j) == if at <= j < at + |ws| then ws[j - at] else Word(data, j)
  {
    hide Word, SetWord;
    if ws != [] {
      SetWordsAt(data, at, ws[..|ws| - 1], j);
      WordOfSetWord(SetWords(data, at, ws[..|ws| - 1]), at + |ws| - 1, ws[|ws| - 1], j);
    }
  }

  function EncodeInode(data: Block, k: nat, ino: Inode): Block
    requires k < IPB && ino.Valid()
  {
    SetWords(data, WPI * k, Words(ino))
  }

  // A stored inode reads back, and its neighbours stay.
  lemma DecodeOfEncode(data: Block, k: nat, ino: Inode, l: nat)
    requires k < IPB && l < IPB && ino.Valid()
    ensures DecodeInode(EncodeInode(data, k, ino), l) == if l == k then ino else DecodeInode(data, l)
  {
    hide Word, SetWords;
    var e, ws := EncodeInode(data, k, ino), Words(ino);
    forall w | 0 <= w < WPI
      ensures Field(e, l, w) == if l == k then ws[w] else Field(data, l, w)
    {
      SetWordsAt(data, WPI * k, ws, WPI * l + w);
    }
    if l == k {
      assert DecodeInode(e, l).addrs == ino.addrs;
    }
  }
}
