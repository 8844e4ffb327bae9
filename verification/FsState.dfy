// Block ownership: which inode slot refers to each allocated block, and what
// each primitive update of fs.c does to that relation.
module FsState {
  import opened Bytes
  import opened FsLayout

  // The contents of all blocks as bread returns them, and the in-core inodes.
  datatype Vol = Vol(blocks: seq<Block>, inodes: seq<Inode>)

  // Slots of an inode: 0..11 direct, 12 the indirect block, 13.. its entries.
  const IND: nat := 12
  const NSLOTS: nat := 141

  // The owner of an allocated data block: inode number and slot.
  type Owners = map<nat, (nat, nat)>

  function SlotOf(bn: nat): (s: nat)
    ensures s != IND
  {
    if bn < NDIRECT then bn else bn + 1
  }

  function SlotIn(ino: Inode, blocks: seq<Block>, s: nat): Word32
    requires ino.Valid() && s < NSLOTS
  {
    if s <= IND then ino.addrs[s]
    else
      var a := ino.addrs[IND];
      if a == 0 || a >= |blocks| then 0 else Word(blocks[a], s - IND - 1)
  }

  // The block number in slot s of inode i; 0 is none.
  function Slot(v: Vol, i: nat, s: nat): Word32
    requires i < |v.inodes| && v.inodes[i].Valid() && s < NSLOTS
  {
    SlotIn(v.inodes[i], v.blocks, s)
  }

  ghost predicate Typed(sb: SuperBlock, v: Vol) {
    && sb.Valid() && |v.blocks| == sb.size && |v.inodes| == sb.ninodes
    && forall i | 0 <= i < sb.ninodes :: v.inodes[i].Valid()
  }

  predicate Bit(sb: SuperBlock, blocks: seq<Block>, b: nat)
    requires sb.BBlock(b) < |blocks|
  {
    BitOf(blocks[sb.BBlock(b)], b % BPB)
  }

  // Every referenced block is a data block owned by that slot, hence by no
  // other; dead slots are being freed and no longer count.
  ghost predicate Referenced(sb: SuperBlock, v: Vol, owner: Owners, dead: set<(nat, nat)>)
    requires Typed(sb, v)
  {
    forall i: nat, s: nat {:trigger Slot(v, i, s)} |
      i < sb.ninodes && s < NSLOTS && (i, s) !in dead && Slot(v, i, s) != 0 ::
      Slot(v, i, s) in owner && owner[Slot(v, i, s)] == (i, s)
  }

  // Every owned block is referenced by its owner.
  ghost predicate Owned(sb: SuperBlock, v: Vol, owner: Owners, dead: set<(nat, nat)>)
    requires Typed(sb, v)
  {
    forall b: nat | b in owner ::
      && sb.datastart <= b < sb.size
      && owner[b].0 < sb.ninodes && owner[b].1 < NSLOTS && owner[b] !in dead
      && Slot(v, owner[b].0, owner[b].1) == b
  }

  // A bitmap bit is set exactly for metadata blocks and owned blocks.
  ghost predicate BitmapIs(sb: SuperBlock, blocks: seq<Block>, used: set<nat>)
    requires sb.Valid() && |blocks| == sb.size
  {
    forall b: nat | b < sb.size :: Bit(sb, blocks, b) <==> b < sb.datastart || b in used
  }

  function DiskInode(sb: SuperBlock, blocks: seq<Block>, i: nat): Inode
    requires sb.IBlock(i) < |blocks|
  {
    DecodeInode(blocks[sb.IBlock(i)], i % IPB)
  }

  // The on-disk inode equals the in-core one, except for those in stale.
  ghost predicate Synced(sb: SuperBlock, v: Vol, stale: set<nat>)
    requires Typed(sb, v)
  {
    forall i: nat | i < sb.ninodes && i !in stale :: DiskInode(sb, v.blocks, i) == v.inodes[i]
  }

  // File blocks below the size are allocated.
  ghost predicate Backed(sb: SuperBlock, v: Vol)
    requires Typed(sb, v)
  {
    forall i: nat | i < sb.ninodes ::
      && v.inodes[i].size <= MAXFILE * BSIZE
      && forall bn: nat {:trigger SlotOf(bn)} | BSIZE * bn < v.inodes[i].size :: Slot(v, i, SlotOf(bn)) != 0
  }

  ghost predicate FsInv(sb: SuperBlock, v: Vol, owner: Owners, stale: set<nat>, dead: set<(nat, nat)>) {
    && Typed(sb, v)
    && Referenced(sb, v, owner, dead) && Owned(sb, v, owner, dead)
    && BitmapIs(sb, v.blocks, owner.Keys)
    && Synced(sb, v, stale)
  }

  // ---------- bitmap updates ----------

  function FlipBlock(sb: SuperBlock, blocks: seq<Block>, b: nat): (r: seq<Block>)
    requires sb.BBlock(b) < |blocks|
    ensures |r| == |blocks|
  {
    blocks[sb.BBlock(b) := FlipOf(blocks[sb.BBlock(b)], b % BPB)]
  }

  lemma FlipBitmap(sb: SuperBlock, blocks: seq<Block>, used: set<nat>, b: nat)
    requires sb.Valid() && |blocks| == sb.size && BitmapIs(sb, blocks, used)
    requires sb.datastart <= b < sb.size
    ensures BitmapIs(sb, FlipBlock(sb, blocks, b), if Bit(sb, blocks, b) then used - {b} else used + {b})
  {
    hide HasBit, FlipInByte, BitOf, FlipOf;
    var blocks' := FlipBlock(sb, blocks, b);
    forall c: nat | c < sb.size
      ensures Bit(sb, blocks', c) == if c == b then !Bit(sb, blocks, c) else Bit(sb, blocks, c)
    {
      if sb.BBlock(c) == sb.BBlock(b) {
        FlipOfAt(blocks[sb.BBlock(b)], b % BPB, c % BPB);
        assert c == BPB * (c / BPB) + c % BPB && b == BPB * (b / BPB) + b % BPB;
      }
    }
  }

  // Changing blocks that are not bitmap blocks.
  lemma BitmapFrame(sb: SuperBlock, blocks: seq<Block>, blocks': seq<Block>, used: set<nat>)
    requires sb.Valid() && |blocks| == |blocks'| == sb.size && BitmapIs(sb, blocks, used)
    requires forall b: nat | b < sb.size :: blocks'[sb.BBlock(b)] == blocks[sb.BBlock(b)]
    ensures BitmapIs(sb, blocks', used)
  {
    hide BitOf;
    forall b: nat | b < sb.size
      ensures Bit(sb, blocks', b) == Bit(sb, blocks, b)
    {
    }
  }

  // ---------- an empty volume ----------

  // Zeroed blocks with the bits of blocks 0..n set, as balloc of mkfs.c does.
  function Marked(sb: SuperBlock, n: nat): (blocks: seq<Block>)
    requires sb.Valid() && n <= sb.size
    ensures |blocks| == sb.size
  {
    if n == 0 then seq(sb.size, _ => ZeroBlock()) else FlipBlock(sb, Marked(sb, n - 1), n - 1)
  }

  lemma {:induction false} MarkedBits(sb: SuperBlock, n: nat, b: nat)
    requires sb.Valid() && n <= sb.size && b < sb.size
    ensures Bit(sb, Marked(sb, n), b) <==> b < n
    ensures forall c | 0 <= c < sb.bmapstart :: Marked(sb, n)[c] == ZeroBlock()
  {
    hide FlipOf, BitOf;
    if n == 0 {
      ZeroBits(b % BPB);
    } else {
      MarkedBits(sb, n - 1, b);
      if sb.BBlock(b) == sb.BBlock(n - 1) {
        FlipOfAt(Marked(sb, n - 1)[sb.BBlock(b)], (n - 1) % BPB, b % BPB);
        assert b == BPB * (b / BPB) + b % BPB && n - 1 == BPB * ((n - 1) / BPB) + (n - 1) % BPB;
      }
    }
  }

  lemma {:induction false} NoBits(k: nat)
    ensures !HasBit(0, k)
  {
    if k > 0 { NoBits(k - 1); }
  }

  lemma ZeroBits(bi: nat)
    requires bi < BPB
    ensures !BitOf(ZeroBlock(), bi)
  {
    NoBits(bi % 8);
  }

  function NoInode(): Inode { Inode(0, 0, 0, seq(NDIRECT + 1, _ => 0)) }

  // A new file system, with no file yet, satisfies the invariant.
  lemma EmptyVolume(sb: SuperBlock)
    requires sb.Valid()
    ensures var v := Vol(Marked(sb, sb.datastart), seq(sb.ninodes, _ => NoInode()));
      FsInv(sb, v, map[], {}, {}) && Backed(sb, v)
  {
    var v := Vol(Marked(sb, sb.datastart), seq(sb.ninodes, _ => NoInode()));
    forall b: nat | b < sb.size
      ensures Bit(sb, v.blocks, b) <==> b < sb.datastart
    {
      MarkedBits(sb, sb.datastart, b);
    }
    forall i: nat | i < sb.ninodes
      ensures DiskInode(sb, v.blocks, i) == v.inodes[i]
    {
      if sb.size > 0 { MarkedBits(sb, sb.datastart, 0); }
      ZeroInode(i % IPB);
    }
  }

  // mkfs ends by rounding the size of the root directory up.
  function Rounded(sb: SuperBlock, v: Vol, i: nat): Vol
    requires Typed(sb, v) && i < sb.ninodes
  {
    v.(inodes := v.inodes[i := v.inodes[i].(size := (v.inodes[i].size / BSIZE + 1) * BSIZE % TWO32)])
  }

  // All blocks below the new size are there exactly if the entries did not fill
  // whole blocks; else the last block of the directory is missing.
  lemma MkfsRoot(sb: SuperBlock, v: Vol, i: nat)
    requires Typed(sb, v) && Backed(sb, v) && i < sb.ninodes
    requires forall bn: nat {:trigger SlotOf(bn)} | bn < MAXFILE && BSIZE * bn >= v.inodes[i].size ::
      Slot(v, i, SlotOf(bn)) == 0
    ensures Typed(sb, Rounded(sb, v, i))
    ensures Backed(sb, Rounded(sb, v, i)) <==> v.inodes[i].size % BSIZE != 0
  {
    var w, s := Rounded(sb, v, i), v.inodes[i].size;
    hide Word;
    assert forall j: nat, t: nat | j < sb.ninodes && t < NSLOTS :: Slot(w, j, t) == Slot(v, j, t);
    hide Slot;
    if s % BSIZE != 0 {
      forall bn: nat | BSIZE * bn < w.inodes[i].size
        ensures Slot(w, i, SlotOf(bn)) != 0
      {
        assert BSIZE * bn < s;
      }
    } else if s < MAXFILE * BSIZE {
      assert BSIZE * (s / BSIZE) < w.inodes[i].size && Slot(w, i, SlotOf(s / BSIZE)) == 0;
    }
  }

  lemma ZeroInode(k: nat)
    requires k < IPB
    ensures DecodeInode(ZeroBlock(), k) == NoInode()
  {
    hide Word;
    forall w: nat | w < WPI
      ensures Field(ZeroBlock(), k, w) == 0
    {
      WordOfZeroBlock(WPI * k + w);
    }
  }

  // ---------- what each primitive does to the slots ----------

  // v' has the same slots as v except slot (i, s), which is now b.
  ghost predicate SlotSet(v: Vol, v': Vol, i: nat, s: nat, b: Word32)
    requires |v.inodes| == |v'.inodes| && forall j | 0 <= j < |v.inodes| :: v.inodes[j].Valid() && v'.inodes[j].Valid()
  {
    forall j: nat, t: nat {:trigger Slot(v', j, t)} | j < |v.inodes| && t < NSLOTS ::
      Slot(v', j, t) == if j == i && t == s then b else Slot(v, j, t)
  }

  // b was owned by nobody; now slot (i, s), empty before, owns it.
  lemma LinkOwner(sb: SuperBlock, v: Vol, v': Vol, owner: Owners, i: nat, s: nat, b: Word32)
    requires Typed(sb, v) && Typed(sb, v') && Referenced(sb, v, owner, {}) && Owned(sb, v, owner, {})
    requires i < sb.ninodes && s < NSLOTS && Slot(v, i, s) == 0
    requires sb.datastart <= b < sb.size && b !in owner && SlotSet(v, v', i, s, b)
    ensures Referenced(sb, v', owner[b := (i, s)], {}) && Owned(sb, v', owner[b := (i, s)], {})
  {
    hide Slot;
    assert 0 < sb.IBlock(i) < sb.datastart;
    var owner' := owner[b := (i, s)];
    forall c: nat | c in owner'
      ensures sb.datastart <= c < sb.size && owner'[c].0 < sb.ninodes && owner'[c].1 < NSLOTS
      ensures Slot(v', owner'[c].0, owner'[c].1) == c
    {
      if c != b {
        assert Slot(v, owner[c].0, owner[c].1) == c;
      }
    }
  }

  // Contents other than indirect blocks do not matter to slots.
  lemma SlotFrame(ino: Inode, blocks: seq<Block>, blocks': seq<Block>, s: nat)
    requires ino.Valid() && s < NSLOTS && |blocks| == |blocks'|
    requires ino.addrs[IND] == 0 || ino.addrs[IND] >= |blocks| || blocks'[ino.addrs[IND]] == blocks[ino.addrs[IND]]
    ensures SlotIn(ino, blocks', s) == SlotIn(ino, blocks, s)
  {
  }

  // The indirect block of inode j is a data block and is no other slot's block.
  lemma IndirectOwned(sb: SuperBlock, v: Vol, owner: Owners, dead: set<(nat, nat)>, j: nat)
    requires Typed(sb, v) && Referenced(sb, v, owner, dead) && Owned(sb, v, owner, dead)
    requires j < sb.ninodes && v.inodes[j].addrs[IND] != 0 && (j, IND) !in dead
    ensures var a := v.inodes[j].addrs[IND];
      a in owner && owner[a] == (j, IND) && sb.datastart <= a < sb.size
  {
    assert Slot(v, j, IND) == v.inodes[j].addrs[IND];
  }

  // balloc for an empty slot s <= 12 of inode i: b is marked, zeroed and linked.
  function LinkDirect(sb: SuperBlock, v: Vol, i: nat, s: nat, b: Word32): Vol
    requires Typed(sb, v) && i < sb.ninodes && s <= IND && b < sb.size
  {
    Vol(FlipBlock(sb, v.blocks, b)[b := ZeroBlock()],
        v.inodes[i := v.inodes[i].(addrs := v.inodes[i].addrs[s := b])])
  }

  lemma LinkDirectSlots(sb: SuperBlock, v: Vol, owner: Owners, i: nat, s: nat, b: Word32)
    requires Typed(sb, v) && Referenced(sb, v, owner, {}) && Owned(sb, v, owner, {})
    requires i < sb.ninodes && s <= IND && v.inodes[i].addrs[s] == 0
    requires sb.datastart <= b < sb.size && b !in owner && b != 0
    ensures Typed(sb, LinkDirect(sb, v, i, s, b))
    ensures SlotSet(v, LinkDirect(sb, v, i, s, b), i, s, b)
  {
    hide Word, FlipOf;
    var v' := LinkDirect(sb, v, i, s, b);
    forall j: nat, t: nat | j < |v.inodes| && t < NSLOTS
      ensures Slot(v', j, t) == if j == i && t == s then b else Slot(v, j, t)
    {
      if j == i && s == IND {
        if t > IND { WordOfZeroBlock(t - IND - 1); }
      } else {
        if v.inodes[j].addrs[IND] != 0 { IndirectOwned(sb, v, owner, {}, j); }
        SlotFrame(v.inodes[j], v.blocks, v'.blocks, t);
      }
    }
  }

  lemma LinkDirectKeeps(sb: SuperBlock, v: Vol, owner: Owners, stale: set<nat>, i: nat, s: nat, b: Word32)
    requires FsInv(sb, v, owner, stale, {})
    requires i < sb.ninodes && s <= IND && v.inodes[i].addrs[s] == 0
    requires b < sb.size && !Bit(sb, v.blocks, b)
    ensures b >= sb.datastart && b !in owner
    ensures var v' := LinkDirect(sb, v, i, s, b);
      && FsInv(sb, v', owner[b := (i, s)], stale + {i}, {}) && (Backed(sb, v) ==> Backed(sb, v'))
      && SlotSet(v, v', i, s, b)
  {
    hide Slot, BitOf, FlipOf, DecodeInode;
    assert b >= sb.datastart && b !in owner;
    var v' := LinkDirect(sb, v, i, s, b);
    assert Slot(v, i, s) == v.inodes[i].addrs[s] by { SlotDirect(v, i, s); }
    LinkDirectSlots(sb, v, owner, i, s, b);
    LinkOwner(sb, v, v', owner, i, s, b);
    FlipBitmap(sb, v.blocks, owner.Keys, b);
    BitmapFrame(sb, FlipBlock(sb, v.blocks, b), v'.blocks, owner.Keys + {b});
    assert owner[b := (i, s)].Keys == owner.Keys + {b};
  }

  lemma SlotDirect(v: Vol, i: nat, s: nat)
    requires i < |v.inodes| && v.inodes[i].Valid() && s <= IND
    ensures Slot(v, i, s) == v.inodes[i].addrs[s]
  {
  }

  // balloc for entry s > 12 of inode i: b is marked, zeroed and stored in the
  // indirect block.
  function LinkEntry(sb: SuperBlock, v: Vol, i: nat, s: nat, b: Word32): Vol
    requires Typed(sb, v) && i < sb.ninodes && IND < s < NSLOTS && b < sb.size
    requires v.inodes[i].addrs[IND] < sb.size
  {
    var a := v.inodes[i].addrs[IND];
    var blocks := FlipBlock(sb, v.blocks, b)[b := ZeroBlock()];
    Vol(blocks[a := SetWord(blocks[a], s - IND - 1, b)], v.inodes)
  }

  lemma LinkEntrySlots(sb: SuperBlock, v: Vol, owner: Owners, i: nat, s: nat, b: Word32)
    requires Typed(sb, v) && Referenced(sb, v, owner, {}) && Owned(sb, v, owner, {})
    requires i < sb.ninodes && IND < s < NSLOTS && v.inodes[i].addrs[IND] != 0
    requires sb.datastart <= b < sb.size && b !in owner
    ensures v.inodes[i].addrs[IND] < sb.size
    ensures Typed(sb, LinkEntry(sb, v, i, s, b))
    ensures SlotSet(v, LinkEntry(sb, v, i, s, b), i, s, b)
  {
    hide Word, SetWord, FlipOf;
    IndirectOwned(sb, v, owner, {}, i);
    var a := v.inodes[i].addrs[IND];
    var v' := LinkEntry(sb, v, i, s, b);
    forall j: nat, t: nat | j < |v.inodes| && t < NSLOTS
      ensures Slot(v', j, t) == if j == i && t == s then b else Slot(v, j, t)
    {
      if j == i {
        if t > IND { WordOfSetWord(v.blocks[a], s - IND - 1, b, t - IND - 1); }
      } else {
        if v.inodes[j].addrs[IND] != 0 { IndirectOwned(sb, v, owner, {}, j); }
        SlotFrame(v.inodes[j], v.blocks, v'.blocks, t);
      }
    }
  }

  lemma LinkEntryKeeps(sb: SuperBlock, v: Vol, owner: Owners, stale: set<nat>, i: nat, s: nat, b: Word32)
    requires FsInv(sb, v, owner, stale, {})
    requires i < sb.ninodes && IND < s < NSLOTS && v.inodes[i].addrs[IND] != 0 && Slot(v, i, s) == 0
    requires b < sb.size && !Bit(sb, v.blocks, b)
    ensures b >= sb.datastart && b !in owner && v.inodes[i].addrs[IND] < sb.size
    ensures var v' := LinkEntry(sb, v, i, s, b);
      && FsInv(sb, v', owner[b := (i, s)], stale, {}) && (Backed(sb, v) ==> Backed(sb, v'))
      && SlotSet(v, v', i, s, b)
  {
    hide Slot, BitOf, FlipOf, DecodeInode, SetWord;
    assert b >= sb.datastart && b !in owner;
    IndirectOwned(sb, v, owner, {}, i);
    var v' := LinkEntry(sb, v, i, s, b);
    LinkEntrySlots(sb, v, owner, i, s, b);
    LinkOwner(sb, v, v', owner, i, s, b);
    FlipBitmap(sb, v.blocks, owner.Keys, b);
    BitmapFrame(sb, FlipBlock(sb, v.blocks, b), v'.blocks, owner.Keys + {b});
    assert owner[b := (i, s)].Keys == owner.Keys + {b};
  }

  // ---------- file contents ----------

  // Byte k of the file of inode i.
  function ByteAt(v: Vol, i: nat, k: nat): Byte
    requires i < |v.inodes| && v.inodes[i].Valid() && k < MAXFILE * BSIZE
  {
    var a := Slot(v, i, SlotOf(k / BSIZE));
    if 0 < a < |v.blocks| then v.blocks[a][k % BSIZE] else 0
  }

  function Content(v: Vol, i: nat): (c: seq<Byte>)
    requires i < |v.inodes| && v.inodes[i].Valid() && v.inodes[i].size <= MAXFILE * BSIZE
    ensures |c| == v.inodes[i].size
  {
    seq(v.inodes[i].size, k requires 0 <= k < v.inodes[i].size => ByteAt(v, i, k))
  }

  // From v to v': allocated slots keep their block, and file data (any block
  // but an indirect one) keeps its contents.
  ghost predicate Extends(sb: SuperBlock, v: Vol, v': Vol)
    requires Typed(sb, v) && Typed(sb, v')
  {
    && (forall j: nat, t: nat {:trigger Slot(v', j, t)} {:trigger Slot(v, j, t)} |
          j < sb.ninodes && t < NSLOTS && Slot(v, j, t) != 0 ::
          Slot(v', j, t) == Slot(v, j, t)
          && (t != IND && Slot(v, j, t) < sb.size ==> v'.blocks[Slot(v, j, t)] == v.blocks[Slot(v, j, t)]))
    && (forall j | 0 <= j < sb.ninodes :: v'.inodes[j].size == v.inodes[j].size)
  }

  // Allocated bytes are the same after an extension.
  lemma ExtendsBytes(sb: SuperBlock, v: Vol, v': Vol, i: nat, k: nat)
    requires Typed(sb, v) && Typed(sb, v') && Extends(sb, v, v')
    requires i < sb.ninodes && k < MAXFILE * BSIZE && Slot(v, i, SlotOf(k / BSIZE)) != 0
    ensures ByteAt(v', i, k) == ByteAt(v, i, k)
  {
  }

  lemma LinkDirectExtends(sb: SuperBlock, v: Vol, owner: Owners, i: nat, s: nat, b: Word32)
    requires Typed(sb, v) && Referenced(sb, v, owner, {}) && Owned(sb, v, owner, {})
    requires i < sb.ninodes && s <= IND && v.inodes[i].addrs[s] == 0
    requires sb.datastart <= b < sb.size && b !in owner && b != 0
    ensures Typed(sb, LinkDirect(sb, v, i, s, b)) && Extends(sb, v, LinkDirect(sb, v, i, s, b))
  {
    LinkDirectSlots(sb, v, owner, i, s, b);
    assert Slot(v, i, s) == 0;
    hide Slot;
  }

  lemma LinkEntryExtends(sb: SuperBlock, v: Vol, owner: Owners, i: nat, s: nat, b: Word32)
    requires Typed(sb, v) && Referenced(sb, v, owner, {}) && Owned(sb, v, owner, {})
    requires i < sb.ninodes && IND < s < NSLOTS && v.inodes[i].addrs[IND] != 0 && Slot(v, i, s) == 0
    requires sb.datastart <= b < sb.size && b !in owner
    ensures v.inodes[i].addrs[IND] < sb.size
    ensures Typed(sb, LinkEntry(sb, v, i, s, b)) && Extends(sb, v, LinkEntry(sb, v, i, s, b))
  {
    LinkEntrySlots(sb, v, owner, i, s, b);
    IndirectOwned(sb, v, owner, {}, i);
    hide Slot, SetWord;
  }

  // ---------- storing into a file block ----------

  // memmove of part into block a at offset o.
  function Patch(data: Block, o: nat, part: seq<Byte>): Block
    requires o + |part| <= BSIZE
  {
    data[..o] + part + data[o + |part|..]
  }

  lemma StoreKeeps(sb: SuperBlock, v: Vol, owner: Owners, stale: set<nat>, i: nat, s: nat, data: Block)
    requires FsInv(sb, v, owner, stale, {}) && Backed(sb, v)
    requires i < sb.ninodes && s < NSLOTS && s != IND && Slot(v, i, s) != 0
    ensures Slot(v, i, s) in owner && sb.datastart <= Slot(v, i, s) < sb.size
    ensures var v' := v.(blocks := v.blocks[Slot(v, i, s) := data]);
      && FsInv(sb, v', owner, stale, {}) && Backed(sb, v')
      && forall j: nat, t: nat | j < sb.ninodes && t < NSLOTS :: Slot(v', j, t) == Slot(v, j, t)
  {
    var a := Slot(v, i, s);
    assert a in owner && owner[a] == (i, s) && sb.datastart <= a < sb.size;
    var v' := v.(blocks := v.blocks[a := data]);
    forall j: nat, t: nat | j < sb.ninodes && t < NSLOTS
      ensures Slot(v', j, t) == Slot(v, j, t)
    {
      hide Word;
      if v.inodes[j].addrs[IND] != 0 { IndirectOwned(sb, v, owner, {}, j); }
      SlotFrame(v.inodes[j], v.blocks, v'.blocks, t);
    }
    hide Slot, BitOf, DecodeInode;
    BitmapFrame(sb, v.blocks, v'.blocks, owner.Keys);
  }

  // ---------- writing an inode to disk ----------

  function Updated(sb: SuperBlock, v: Vol, i: nat): Vol
    requires Typed(sb, v) && i < sb.ninodes
  {
    v.(blocks := v.blocks[sb.IBlock(i) := EncodeInode(v.blocks[sb.IBlock(i)], i % IPB, v.inodes[i])])
  }

  lemma UpdatedSlots(sb: SuperBlock, v: Vol, owner: Owners, dead: set<(nat, nat)>, i: nat)
    requires Typed(sb, v) && Referenced(sb, v, owner, dead) && Owned(sb, v, owner, dead) && i < sb.ninodes
    requires forall j: nat | j < sb.ninodes :: (j, IND) !in dead
    ensures Typed(sb, Updated(sb, v, i))
    ensures forall j: nat, t: nat | j < sb.ninodes && t < NSLOTS :: Slot(Updated(sb, v, i), j, t) == Slot(v, j, t)
  {
    hide Word, EncodeInode;
    var v' := Updated(sb, v, i);
    forall j: nat, t: nat | j < sb.ninodes && t < NSLOTS
      ensures Slot(v', j, t) == Slot(v, j, t)
    {
      if v.inodes[j].addrs[IND] != 0 { IndirectOwned(sb, v, owner, dead, j); }
      SlotFrame(v.inodes[j], v.blocks, v'.blocks, t);
    }
  }

  lemma UpdatedKeeps(sb: SuperBlock, v: Vol, owner: Owners, stale: set<nat>, i: nat)
    requires FsInv(sb, v, owner, stale, {}) && i < sb.ninodes
    ensures FsInv(sb, Updated(sb, v, i), owner, stale - {i}, {})
    ensures Backed(sb, v) ==> Backed(sb, Updated(sb, v, i))
    ensures Extends(sb, v, Updated(sb, v, i))
  {
    var v' := Updated(sb, v, i);
    UpdatedSlots(sb, v, owner, {}, i);
    hide Slot, BitOf, DecodeInode, EncodeInode;
    BitmapFrame(sb, v.blocks, v'.blocks, owner.Keys);
    forall j: nat | j < sb.ninodes && j !in stale - {i}
      ensures DiskInode(sb, v'.blocks, j) == v'.inodes[j]
    {
      if sb.IBlock(j) == sb.IBlock(i) {
        DecodeOfEncode(v.blocks[sb.IBlock(i)], i % IPB, v.inodes[i], j % IPB);
        assert j == IPB * (j / IPB) + j % IPB && i == IPB * (i / IPB) + i % IPB;
      }
    }
  }

  // ---------- freeing ----------

  // Block b leaves the relation: its slot is emptied or dead.
  lemma UnlinkOwner(sb: SuperBlock, v: Vol, v': Vol, owner: Owners, dead: set<(nat, nat)>, dead': set<(nat, nat)>,
                    b: nat)
    requires Typed(sb, v) && Typed(sb, v') && Referenced(sb, v, owner, dead) && Owned(sb, v, owner, dead)
    requires b in owner
    requires forall j: nat, t: nat | j < sb.ninodes && t < NSLOTS && (j, t) !in dead && (j, t) != owner[b] ::
      (j, t) !in dead' && Slot(v', j, t) == Slot(v, j, t)
    requires forall j: nat, t: nat | j < sb.ninodes && t < NSLOTS && (j, t) !in dead' && ((j, t) in dead || (j, t) == owner[b]) ::
      Slot(v', j, t) == 0
    ensures Referenced(sb, v', owner - {b}, dead') && Owned(sb, v', owner - {b}, dead')
  {
    hide Slot;
    var owner' := owner - {b};
    forall j: nat, t: nat | j < sb.ninodes && t < NSLOTS && (j, t) !in dead' && Slot(v', j, t) != 0
      ensures Slot(v', j, t) in owner' && owner'[Slot(v', j, t)] == (j, t)
    {
      assert Slot(v, j, t) == Slot(v', j, t);
    }
    forall c: nat | c in owner'
      ensures sb.datastart <= c < sb.size && owner'[c].0 < sb.ninodes && owner'[c].1 < NSLOTS && owner'[c] !in dead'
      ensures Slot(v', owner'[c].0, owner'[c].1) == c
    {
      assert Slot(v, owner[b].0, owner[b].1) == b;
      assert Slot(v, owner[c].0, owner[c].1) == c;
    }
  }

  // bfree of a direct block and clearing of its slot.
  function DropDirect(sb: SuperBlock, v: Vol, i: nat, s: nat): Vol
    requires Typed(sb, v) && i < sb.ninodes && s <= IND && v.inodes[i].addrs[s] < sb.size
  {
    Vol(FlipBlock(sb, v.blocks, v.inodes[i].addrs[s]),
        v.inodes[i := v.inodes[i].(addrs := v.inodes[i].addrs[s := 0])])
  }

  // The slots of inode i that lie in its indirect block, below entry n.
  function Entries(i: nat, n: nat): set<(nat, nat)> {
    set t: nat | IND < t < IND + 1 + n :: (i, t)
  }

  lemma DropDirectSlots(sb: SuperBlock, v: Vol, owner: Owners, dead: set<(nat, nat)>, i: nat, s: nat)
    requires Typed(sb, v) && Referenced(sb, v, owner, dead) && Owned(sb, v, owner, dead)
    requires forall j: nat | j < sb.ninodes :: (j, IND) !in dead
    requires i < sb.ninodes && s <= IND && v.inodes[i].addrs[s] < sb.size
    ensures Typed(sb, DropDirect(sb, v, i, s))
    ensures forall j: nat, t: nat | j < sb.ninodes && t < NSLOTS ::
      Slot(DropDirect(sb, v, i, s), j, t)
      == if j == i && (t == s || (s == IND && t > IND)) then 0 else Slot(v, j, t)
  {
    hide Word, FlipOf;
    var v' := DropDirect(sb, v, i, s);
    forall j: nat, t: nat | j < sb.ninodes && t < NSLOTS
      ensures Slot(v', j, t) == if j == i && (t == s || (s == IND && t > IND)) then 0 else Slot(v, j, t)
    {
      if j != i || s != IND {
        if v.inodes[j].addrs[IND] != 0 { IndirectOwned(sb, v, owner, dead, j); }
        SlotFrame(v.inodes[j], v.blocks, v'.blocks, t);
      }
    }
  }

  lemma DropDirectKeeps(sb: SuperBlock, v: Vol, owner: Owners, stale: set<nat>, dead: set<(nat, nat)>, i: nat, s: nat)
    requires FsInv(sb, v, owner, stale, dead) && i < sb.ninodes && s <= IND && v.inodes[i].addrs[s] != 0
    requires dead == if s == IND then Entries(i, NINDIRECT) else {}
    ensures var b := v.inodes[i].addrs[s];
      && b in owner && owner[b] == (i, s) && sb.datastart <= b < sb.size && Bit(sb, v.blocks, b)
      && FsInv(sb, DropDirect(sb, v, i, s), owner - {b}, stale + {i}, {})
  {
    hide BitOf, FlipOf, DecodeInode, Word;
    var b := v.inodes[i].addrs[s];
    assert Slot(v, i, s) == b;
    var v' := DropDirect(sb, v, i, s);
    DropDirectSlots(sb, v, owner, dead, i, s);
    hide Slot;
    UnlinkOwner(sb, v, v', owner, dead, {}, b);
    FlipBitmap(sb, v.blocks, owner.Keys, b);
    assert (owner - {b}).Keys == owner.Keys - {b};
  }

  // bfree of the block in entry n of the indirect block of inode i.
  lemma DropEntryKeeps(sb: SuperBlock, v: Vol, owner: Owners, stale: set<nat>, i: nat, n: nat)
    requires FsInv(sb, v, owner, stale, Entries(i, n)) && i < sb.ninodes && n < NINDIRECT
    ensures var b := Slot(v, i, IND + 1 + n);
      if b == 0 then FsInv(sb, v, owner, stale, Entries(i, n + 1))
      else
        && b in owner && owner[b] == (i, IND + 1 + n) && sb.datastart <= b < sb.size && Bit(sb, v.blocks, b)
        && FsInv(sb, v.(blocks := FlipBlock(sb, v.blocks, b)), owner - {b}, stale, Entries(i, n + 1))
  {
    hide BitOf, FlipOf, DecodeInode, Word;
    var b := Slot(v, i, IND + 1 + n);
    assert Entries(i, n + 1) == Entries(i, n) + {(i, IND + 1 + n)};
    if b != 0 {
      assert b in owner && owner[b] == (i, IND + 1 + n);
      var v' := v.(blocks := FlipBlock(sb, v.blocks, b));
      forall j: nat, t: nat | j < sb.ninodes && t < NSLOTS
        ensures Slot(v', j, t) == Slot(v, j, t)
      {
        if v.inodes[j].addrs[IND] != 0 { IndirectOwned(sb, v, owner, Entries(i, n), j); }
        SlotFrame(v.inodes[j], v.blocks, v'.blocks, t);
      }
      hide Slot;
      UnlinkOwner(sb, v, v', owner, Entries(i, n), Entries(i, n + 1), b);
      FlipBitmap(sb, v.blocks, owner.Keys, b);
      assert (owner - {b}).Keys == owner.Keys - {b};
    } else {
      EmptyIsDead(sb, v, owner, Entries(i, n), (i, IND + 1 + n));
    }
  }

  lemma EmptyIsDead(sb: SuperBlock, v: Vol, owner: Owners, dead: set<(nat, nat)>, e: (nat, nat))
    requires Typed(sb, v) && Referenced(sb, v, owner, dead) && Owned(sb, v, owner, dead)
    requires e.0 < sb.ninodes && e.1 < NSLOTS && Slot(v, e.0, e.1) == 0
    ensures Referenced(sb, v, owner, dead + {e}) && Owned(sb, v, owner, dead + {e})
  {
    assert 0 < sb.IBlock(e.0) < sb.datastart;
    hide Slot;
  }

  // Storing data into block a of slot SlotOf(bn) changes those bytes only: no
  // other slot of any file refers to a.
  lemma StoreBytes(sb: SuperBlock, v: Vol, owner: Owners, i: nat, bn: nat, data: Block, j: nat, k: nat)
    requires Typed(sb, v) && Referenced(sb, v, owner, {}) && Owned(sb, v, owner, {})
    requires i < sb.ninodes && bn < MAXFILE && Slot(v, i, SlotOf(bn)) != 0 && Slot(v, i, SlotOf(bn)) < sb.size
    requires j < sb.ninodes && k < MAXFILE * BSIZE
    ensures var w := v.(blocks := v.blocks[Slot(v, i, SlotOf(bn)) := data]);
      ByteAt(w, j, k) == if j == i && k / BSIZE == bn then data[k % BSIZE] else ByteAt(v, j, k)
  {
    var a := Slot(v, i, SlotOf(bn));
    var w := v.(blocks := v.blocks[a := data]);
    var t := SlotOf(k / BSIZE);
    assert owner[a] == (i, SlotOf(bn));
    if v.inodes[j].addrs[IND] != 0 { IndirectOwned(sb, v, owner, {}, j); }
    SlotFrame(v.inodes[j], v.blocks, w.blocks, t);
    assert Slot(w, j, t) == Slot(v, j, t);
    if Slot(v, j, t) == a {
      assert owner[a] == (j, t);
    }
  }
}
