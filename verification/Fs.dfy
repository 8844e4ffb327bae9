// fs.c: balloc, bfree, bmap, iupdate, itrunc, readi and writei, over the block
// contents that bread returns; file.c: the chunked writes.
module FileSystem {
  import opened Common
  import opened Bytes
  import opened FsLayout
  import opened FsState

  // The blocks that bmap logs when it allocates file block bn.
  ghost function MapLog(sb: SuperBlock, v: Vol, v': Vol, i: nat, bn: nat): set<nat>
    requires Typed(sb, v) && Typed(sb, v') && i < sb.ninodes && bn < MAXFILE
  {
    var b, ind := Slot(v', i, SlotOf(bn)), v'.inodes[i].addrs[IND];
    {b, sb.BBlock(b)}
    + (if bn < NDIRECT then {} else {ind})
    + (if bn >= NDIRECT && v.inodes[i].addrs[IND] == 0 then {sb.BBlock(ind)} else {})
  }

  // Only the addresses of inode i may differ.
  ghost predicate OnlyAddrs(inodes: seq<Inode>, inodes': seq<Inode>, i: nat) {
    && |inodes'| == |inodes| && i < |inodes|
    && inodes' == inodes[i := inodes[i].(addrs := inodes'[i].addrs)]
  }

  // From blocks b0, with l0 logged, to b1, with l1 logged: only logged blocks
  // differ, and those newly logged come after the log.
  ghost predicate Tracked(sb: SuperBlock, b0: seq<Block>, l0: set<nat>, b1: seq<Block>, l1: set<nat>) {
    && |b1| == |b0| && l0 <= l1
    && (forall b | 0 <= b < |b0| && b !in l1 :: b1[b] == b0[b])
    && forall b | b in l1 && b !in l0 :: sb.inodestart <= b < |b0|
  }

  lemma TrackedTrans(sb: SuperBlock, b0: seq<Block>, l0: set<nat>, b1: seq<Block>, l1: set<nat>, b2: seq<Block>,
                     l2: set<nat>)
    requires Tracked(sb, b0, l0, b1, l1) && Tracked(sb, b1, l1, b2, l2)
    ensures Tracked(sb, b0, l0, b2, l2)
  {
  }

  lemma TrackedSelf(sb: SuperBlock, b0: seq<Block>, l0: set<nat>)
    ensures Tracked(sb, b0, l0, b0, l0)
  {
  }

  lemma TrackedPut(sb: SuperBlock, b0: seq<Block>, l0: set<nat>, b: nat, data: Block)
    requires sb.inodestart <= b < |b0|
    ensures Tracked(sb, b0, l0, b0[b := data], l0 + {b})
  {
  }

  // balloc for some inode i.
  lemma TrackedLink(sb: SuperBlock, b0: seq<Block>, l0: set<nat>, b: nat, i: nat)
    requires sb.Valid() && |b0| == sb.size && i < sb.ninodes && sb.datastart <= b < sb.size
    ensures Tracked(sb, b0, l0, FlipBlock(sb, b0, b)[b := ZeroBlock()], l0 + {sb.BBlock(b), b})
  {
    assert sb.inodestart <= sb.IBlock(i) < sb.bmapstart <= sb.BBlock(b);
    hide FlipOf;
  }

  // ---------- how many blocks an allocation takes ----------

  // Data blocks that nobody owns.
  function Space(sb: SuperBlock, owner: Owners): int { sb.size - sb.datastart - |owner| }

  // They are the free blocks of the bitmap.
  lemma SpaceIsFree(sb: SuperBlock, v: Vol, owner: Owners, stale: set<nat>)
    requires FsInv(sb, v, owner, stale, {})
    ensures Space(sb, owner) == |FreeBlocks(sb, v.blocks)| >= 0
    ensures Space(sb, owner) > 0 <==> exists b: nat :: b < sb.size && !Bit(sb, v.blocks, b)
  {
    hide Bit, Slot, DecodeInode, BitmapIs, Owned, Referenced, Synced, FreeBlocks;
    OwnedInRange(sb, v, owner, {});
    FreeCount(sb, v.blocks, owner.Keys);
    SomeFree(sb, v.blocks);
  }

  lemma SomeFree(sb: SuperBlock, blocks: seq<Block>)
    requires sb.Valid() && |blocks| == sb.size
    ensures |FreeBlocks(sb, blocks)| > 0 <==> exists b: nat :: b < sb.size && !Bit(sb, blocks, b)
  {
    hide Bit;
    var free := FreeBlocks(sb, blocks);
    if b: nat :| b < sb.size && !Bit(sb, blocks, b) {
      assert b in free;
    } else {
      assert free == {};
    }
  }

  lemma OwnedInRange(sb: SuperBlock, v: Vol, owner: Owners, dead: set<(nat, nat)>)
    requires Typed(sb, v) && Owned(sb, v, owner, dead)
    ensures forall b: nat | b in owner.Keys :: sb.datastart <= b < sb.size
  {
    hide Slot;
  }

  lemma FreeCount(sb: SuperBlock, blocks: seq<Block>, used: set<nat>)
    requires sb.Valid() && |blocks| == sb.size && BitmapIs(sb, blocks, used)
    requires forall b: nat | b in used :: sb.datastart <= b < sb.size
    ensures |FreeBlocks(sb, blocks)| == sb.size - sb.datastart - |used|
  {
    hide Bit;
    var all, free := Range(sb.datastart, sb.size), FreeBlocks(sb, blocks);
    assert all == free + used && free !! used;
  }

  lemma SpaceThere(sb: SuperBlock, v: Vol, owner: Owners, stale: set<nat>)
    requires FsInv(sb, v, owner, stale, {})
    ensures Space(sb, owner) >= 0
  {
    SpaceIsFree(sb, v, owner, stale);
  }

  ghost function FreeBlocks(sb: SuperBlock, blocks: seq<Block>): set<nat>
    requires sb.Valid() && |blocks| == sb.size
  {
    set b: nat | b < sb.size && !Bit(sb, blocks, b)
  }

  // File blocks lo..hi of inode i that have no block.
  function Missing(v: Vol, i: nat, lo: nat, hi: nat): (m: nat)
    requires i < |v.inodes| && v.inodes[i].Valid() && hi <= MAXFILE
    ensures m <= if lo < hi then hi - lo else 0
  {
    if lo >= hi then 0
    else Missing(v, i, lo, hi - 1) + if Slot(v, i, SlotOf(hi - 1)) == 0 then 1 else 0
  }

  // Blocks to allocate before they all have one: theirs, and the indirect block.
  function Needed(v: Vol, i: nat, lo: nat, hi: nat): nat
    requires i < |v.inodes| && v.inodes[i].Valid() && hi <= MAXFILE
  {
    Missing(v, i, lo, hi) + if v.inodes[i].addrs[IND] == 0 && lo < hi && hi > NDIRECT then 1 else 0
  }

  lemma {:induction false} NeededMore(v: Vol, i: nat, lo: nat, mid: nat, hi: nat)
    requires i < |v.inodes| && v.inodes[i].Valid() && mid <= hi <= MAXFILE
    ensures Needed(v, i, lo, mid) <= Needed(v, i, lo, hi)
  {
    hide Slot;
    if mid < hi { NeededMore(v, i, lo, mid, hi - 1); }
  }

  // From v to w: file blocks lo..hi of inode i have a block now; no other slot
  // changes, except that the indirect block is there if it is needed.
  ghost predicate Filled(v: Vol, w: Vol, i: nat, lo: nat, hi: nat)
    requires i < |v.inodes| == |w.inodes|
    requires forall j | 0 <= j < |v.inodes| :: v.inodes[j].Valid() && w.inodes[j].Valid()
  {
    && (forall j: nat, t: nat {:trigger Slot(w, j, t)} | j < |v.inodes| && t < NSLOTS && j != i :: Slot(w, j, t) == Slot(v, j, t))
    && (forall bn: nat {:trigger SlotOf(bn)} | bn < MAXFILE ::
          if lo <= bn < hi && Slot(v, i, SlotOf(bn)) == 0 then Slot(w, i, SlotOf(bn)) != 0
          else Slot(w, i, SlotOf(bn)) == Slot(v, i, SlotOf(bn)))
    && v.inodes[i].Valid() && w.inodes[i].Valid()
    && (v.inodes[i].addrs[IND] != 0 ==> w.inodes[i].addrs[IND] == v.inodes[i].addrs[IND])
    && (v.inodes[i].addrs[IND] == 0 ==> (w.inodes[i].addrs[IND] != 0 <==> lo < hi && hi > NDIRECT))
  }

  lemma FilledSelf(v: Vol, i: nat, lo: nat)
    requires i < |v.inodes| && forall j | 0 <= j < |v.inodes| :: v.inodes[j].Valid()
    ensures Filled(v, v, i, lo, lo)
  {
    hide Slot;
  }

  // A store into a file block fills no slot.
  lemma FilledStored(v: Vol, u: Vol, w: Vol, i: nat, bn: nat)
    requires i < |v.inodes| == |u.inodes| && w.inodes == u.inodes
    requires forall j | 0 <= j < |v.inodes| :: v.inodes[j].Valid() && u.inodes[j].Valid()
    requires Filled(v, u, i, bn, bn + 1)
    requires forall j: nat, t: nat | j < |v.inodes| && t < NSLOTS :: Slot(w, j, t) == Slot(u, j, t)
    ensures Filled(v, w, i, bn, bn + 1)
  {
    hide Slot;
  }

  lemma FilledTrans(v: Vol, u: Vol, w: Vol, i: nat, lo: nat, mid: nat, hi: nat)
    requires i < |v.inodes| == |u.inodes| == |w.inodes| && lo <= mid <= hi
    requires forall j | 0 <= j < |v.inodes| :: v.inodes[j].Valid() && u.inodes[j].Valid() && w.inodes[j].Valid()
    requires Filled(v, u, i, lo, mid) && Filled(u, w, i, mid, hi)
    ensures Filled(v, w, i, lo, hi)
  {
    hide Slot;
  }

  // The first file block after bytes off..off+n.
  function PastEnd(off: nat, n: nat): nat { if n == 0 then off / BSIZE else (off + n + BSIZE - 1) / BSIZE }

  lemma PastNone(off: nat)
    ensures PastEnd(off, 0) == off / BSIZE
  {
  }

  lemma PastNext(off: nat, tot: nat, m: nat, n: nat)
    requires 0 < m && tot + m <= n && (off + tot) % BSIZE + m <= BSIZE && (tot == 0 || (off + tot) % BSIZE == 0)
    requires off + n <= MAXFILE * BSIZE
    ensures PastEnd(off, tot) == (off + tot) / BSIZE && PastEnd(off, tot + m) == (off + tot) / BSIZE + 1
    ensures off / BSIZE <= PastEnd(off, tot) && PastEnd(off, tot + m) <= PastEnd(off, n) <= MAXFILE
  {
  }

  // What the loop of writei has allocated so far: all blocks below hi.
  ghost predicate Filling(sb: SuperBlock, v: Vol, owner0: Owners, w: Vol, owner: Owners, i: nat, lo: nat, hi: nat) {
    && Typed(sb, v) && Typed(sb, w) && i < sb.ninodes && lo <= hi <= MAXFILE
    && Filled(v, w, i, lo, hi) && |owner| == |owner0| + Needed(v, i, lo, hi) && Space(sb, owner) >= 0
  }

  lemma FillingStart(sb: SuperBlock, v: Vol, owner: Owners, i: nat, lo: nat)
    requires FsInv(sb, v, owner, {}, {}) && i < sb.ninodes && lo <= MAXFILE
    ensures Filling(sb, v, owner, v, owner, i, lo, lo)
  {
    FilledSelf(v, i, lo);
    SpaceThere(sb, v, owner, {});
    hide Slot;
  }

  // One round, from u, if there is space for it.
  lemma FillingNext(sb: SuperBlock, v: Vol, owner0: Owners, u: Vol, owner1: Owners, w: Vol, owner: Owners, i: nat,
                    lo: nat, bn: nat, hi: nat, ok: bool, stale: set<nat>)
    requires Filling(sb, v, owner0, u, owner1, i, lo, bn) && bn < hi <= MAXFILE && FsInv(sb, w, owner, stale, {})
    requires ok <==> Space(sb, owner1) >= Needed(u, i, bn, bn + 1)
    requires ok ==> |owner| == |owner1| + Needed(u, i, bn, bn + 1) && Filled(u, w, i, bn, bn + 1)
    ensures ok ==> Filling(sb, v, owner0, w, owner, i, lo, bn + 1)
    ensures !ok ==> Space(sb, owner0) < Needed(v, i, lo, hi)
  {
    hide Filled, Needed;
    NeededThen(v, u, i, lo, bn, bn + 1);
    NeededMore(v, i, lo, bn + 1, hi);
    SpaceThere(sb, w, owner, stale);
    if ok { FilledTrans(v, u, w, i, lo, bn, bn + 1); }
    hide FsInv;
  }

  // Sizes and copies of inodes on disk do not matter.
  lemma FillingUpdate(sb: SuperBlock, v: Vol, owner0: Owners, u: Vol, w: Vol, owner: Owners, i: nat, lo: nat, hi: nat)
    requires Filling(sb, v, owner0, u, owner, i, lo, hi) && Typed(sb, w)
    requires forall j: nat, t: nat | j < sb.ninodes && t < NSLOTS :: Slot(w, j, t) == Slot(u, j, t)
    ensures Filling(sb, v, owner0, w, owner, i, lo, hi)
  {
    SlotDirect(u, i, IND);
    SlotDirect(w, i, IND);
    hide Slot;
    assert Slot(w, i, IND) == Slot(u, i, IND);
  }

  // Blocks that are there need not be counted.
  lemma {:induction false} NeededSkip(v: Vol, i: nat, lo: nat, mid: nat, hi: nat)
    requires i < |v.inodes| && v.inodes[i].Valid() && lo <= mid <= hi <= MAXFILE
    requires forall bn: nat {:trigger SlotOf(bn)} | lo <= bn < mid :: Slot(v, i, SlotOf(bn)) != 0
    ensures Needed(v, i, lo, hi) == Needed(v, i, mid, hi)
  {
    if lo < mid {
      if mid > NDIRECT { EntryNeedsIndirect(v, i, SlotOf(mid - 1)); }
      hide Slot;
      MissingSkip(v, i, lo, mid, hi);
    }
  }

  lemma {:induction false} MissingSkip(v: Vol, i: nat, lo: nat, mid: nat, hi: nat)
    requires i < |v.inodes| && v.inodes[i].Valid() && lo <= mid <= hi <= MAXFILE
    requires forall bn: nat {:trigger SlotOf(bn)} | lo <= bn < mid :: Slot(v, i, SlotOf(bn)) != 0
    ensures Missing(v, i, lo, hi) == Missing(v, i, mid, hi)
  {
    hide Slot;
    if lo < hi {
      if mid < hi {
        MissingSkip(v, i, lo, mid, hi - 1);
      } else {
        MissingSkip(v, i, lo, hi - 1, hi - 1);
        assert Slot(v, i, SlotOf(hi - 1)) != 0;
      }
    }
  }

  lemma FilledSkip(v: Vol, w: Vol, i: nat, lo: nat, mid: nat, hi: nat)
    requires i < |v.inodes| == |w.inodes| && lo <= mid <= hi <= MAXFILE
    requires forall j | 0 <= j < |v.inodes| :: v.inodes[j].Valid() && w.inodes[j].Valid()
    requires forall bn: nat {:trigger SlotOf(bn)} | lo <= bn < mid :: Slot(v, i, SlotOf(bn)) != 0
    requires Filled(v, w, i, lo, hi)
    ensures Filled(v, w, i, mid, hi)
  {
    if lo < mid && mid > NDIRECT { EntryNeedsIndirect(v, i, SlotOf(mid - 1)); }
    hide Slot;
  }

  // A chunk that starts in a block that the last chunk has filled already.
  lemma ChunkJoins(sb: SuperBlock, v0: Vol, owner0: Owners, v: Vol, owner1: Owners, w: Vol, owner: Owners, i: nat,
                   lo: nat, at: nat, mid: nat, hi: nat)
    requires Filling(sb, v0, owner0, v, owner1, i, lo, mid) && Filling(sb, v, owner1, w, owner, i, at, hi)
    requires lo <= at <= mid <= hi
    ensures Filling(sb, v0, owner0, w, owner, i, lo, hi)
  {
    FilledThere(sb, v0, v, i, lo, mid);
    hide Needed, Filled;
    NeededSkip(v, i, at, mid, hi);
    FilledSkip(v, w, i, at, mid, hi);
    NeededThen(v0, v, i, lo, mid, hi);
    FilledTrans(v0, v, w, i, lo, mid, hi);
  }

  lemma FilledThere(sb: SuperBlock, v0: Vol, v: Vol, i: nat, lo: nat, mid: nat)
    requires Typed(sb, v0) && Typed(sb, v) && i < sb.ninodes && mid <= MAXFILE && Filled(v0, v, i, lo, mid)
    ensures forall bn: nat {:trigger SlotOf(bn)} | lo <= bn < mid :: Slot(v, i, SlotOf(bn)) != 0
  {
    hide Slot;
  }

  lemma ChunkSpace(sb: SuperBlock, v0: Vol, owner0: Owners, v: Vol, owner1: Owners, i: nat, lo: nat, at: nat, mid: nat,
                   hi: nat)
    requires Filling(sb, v0, owner0, v, owner1, i, lo, mid) && lo <= at <= mid <= hi <= MAXFILE
    ensures Space(sb, owner1) < Needed(v, i, at, hi) <==> Space(sb, owner0) < Needed(v0, i, lo, hi)
  {
    FilledThere(sb, v0, v, i, lo, mid);
    hide Needed, Filled;
    NeededSkip(v, i, at, mid, hi);
    NeededThen(v0, v, i, lo, mid, hi);
  }

  lemma ChunkEnds(off: nat, k: nat, n: nat)
    requires 0 < n && off + k + n <= MAXFILE * BSIZE
    ensures PastEnd(off + k, n) == PastEnd(off, k + n)
    ensures off / BSIZE <= (off + k) / BSIZE <= PastEnd(off, k) <= PastEnd(off, k + n) <= MAXFILE
  {
  }

  lemma FillingEnd(sb: SuperBlock, v: Vol, owner0: Owners, w: Vol, owner: Owners, i: nat, lo: nat, hi: nat)
    requires Filling(sb, v, owner0, w, owner, i, lo, hi)
    ensures i < |v.inodes| && v.inodes[i].Valid() && hi <= MAXFILE && Space(sb, owner0) >= Needed(v, i, lo, hi)
  {
    hide Filled, Needed;
  }

  lemma NeededOne(v: Vol, i: nat, bn: nat)
    requires i < |v.inodes| && v.inodes[i].Valid() && bn < MAXFILE
    ensures Needed(v, i, bn, bn + 1) ==
      if Slot(v, i, SlotOf(bn)) != 0 then 0 else if bn >= NDIRECT && v.inodes[i].addrs[IND] == 0 then 2 else 1
  {
    if bn >= NDIRECT && v.inodes[i].addrs[IND] == 0 { NoEntries(v, i, SlotOf(bn)); }
    hide Slot;
    assert Missing(v, i, bn, bn) == 0;
  }

  // v' is v, with b in slot s of inode i already, or is v with s filled.
  ghost predicate SlotGot(v: Vol, v': Vol, i: nat, s: nat, b: Word32)
    requires |v.inodes| == |v'.inodes| && forall j | 0 <= j < |v.inodes| :: v.inodes[j].Valid() && v'.inodes[j].Valid()
  {
    && i < |v.inodes| && s < NSLOTS && b != 0
    && if v' == v then Slot(v, i, s) == b else Slot(v, i, s) == 0 && SlotSet(v, v', i, s, b)
  }

  lemma FilledDirect(v: Vol, w: Vol, i: nat, bn: nat, b: Word32)
    requires |v.inodes| == |w.inodes| && forall j | 0 <= j < |v.inodes| :: v.inodes[j].Valid() && w.inodes[j].Valid()
    requires bn < NDIRECT && SlotGot(v, w, i, bn, b)
    ensures Filled(v, w, i, bn, bn + 1)
  {
    SlotDirect(v, i, IND);
    SlotDirect(w, i, IND);
    hide Slot;
    assert Slot(w, i, IND) == Slot(v, i, IND);
  }

  lemma FilledFar(v: Vol, u: Vol, w: Vol, i: nat, bn: nat, a: Word32, b: Word32)
    requires |v.inodes| == |u.inodes| == |w.inodes|
    requires forall j | 0 <= j < |v.inodes| :: v.inodes[j].Valid() && u.inodes[j].Valid() && w.inodes[j].Valid()
    requires NDIRECT <= bn < MAXFILE && SlotGot(v, u, i, IND, a) && SlotGot(u, w, i, SlotOf(bn), b)
    ensures Filled(v, w, i, bn, bn + 1)
  {
    SlotDirect(v, i, IND);
    SlotDirect(u, i, IND);
    SlotDirect(w, i, IND);
    hide Slot;
    assert Slot(w, i, IND) == Slot(u, i, IND);
  }

  // What is still needed after file blocks lo..mid were filled.
  lemma {:induction false} NeededThen(v: Vol, u: Vol, i: nat, lo: nat, mid: nat, hi: nat)
    requires i < |v.inodes| == |u.inodes| && lo <= mid <= hi <= MAXFILE
    requires forall j | 0 <= j < |v.inodes| :: v.inodes[j].Valid() && u.inodes[j].Valid()
    requires Filled(v, u, i, lo, mid)
    ensures Needed(v, i, lo, hi) == Needed(v, i, lo, mid) + Needed(u, i, mid, hi)
  {
    hide Slot;
    MissingThen(v, u, i, lo, mid, hi);
  }

  lemma {:induction false} MissingThen(v: Vol, u: Vol, i: nat, lo: nat, mid: nat, hi: nat)
    requires i < |v.inodes| == |u.inodes| && lo <= mid <= hi <= MAXFILE
    requires forall j | 0 <= j < |v.inodes| :: v.inodes[j].Valid() && u.inodes[j].Valid()
    requires Filled(v, u, i, lo, mid)
    ensures Missing(v, i, lo, hi) == Missing(v, i, lo, mid) + Missing(u, i, mid, hi)
  {
    hide Slot;
    if mid < hi {
      MissingThen(v, u, i, lo, mid, hi - 1);
      assert Slot(u, i, SlotOf(hi - 1)) == Slot(v, i, SlotOf(hi - 1));
    }
  }

  lemma ExtendsSelf(sb: SuperBlock, v: Vol)
    requires Typed(sb, v)
    ensures Extends(sb, v, v)
  {
  }

  lemma ExtendsTrans(sb: SuperBlock, u: Vol, v: Vol, w: Vol)
    requires Typed(sb, u) && Typed(sb, v) && Typed(sb, w) && Extends(sb, u, v) && Extends(sb, v, w)
    ensures Extends(sb, u, w)
  {
    hide Slot;
  }

  lemma SlotSetAt(v: Vol, v': Vol, i: nat, s: nat, b: Word32, t: nat)
    requires |v.inodes| == |v'.inodes| && forall j | 0 <= j < |v.inodes| :: v.inodes[j].Valid() && v'.inodes[j].Valid()
    requires SlotSet(v, v', i, s, b) && i < |v.inodes| && t < NSLOTS
    ensures Slot(v', i, t) == if t == s then b else Slot(v, i, t)
  {
  }

  lemma NoEntries(v: Vol, i: nat, s: nat)
    requires i < |v.inodes| && v.inodes[i].Valid() && IND < s < NSLOTS && v.inodes[i].addrs[IND] == 0
    ensures Slot(v, i, s) == 0
  {
  }

  lemma EntryNeedsIndirect(v: Vol, i: nat, s: nat)
    requires i < |v.inodes| && v.inodes[i].Valid() && IND < s < NSLOTS && Slot(v, i, s) != 0
    ensures v.inodes[i].addrs[IND] != 0
  {
  }

  lemma SlotEntry(v: Vol, i: nat, s: nat)
    requires i < |v.inodes| && v.inodes[i].Valid() && IND < s < NSLOTS && 0 < v.inodes[i].addrs[IND] < |v.blocks|
    ensures Slot(v, i, s) == Word(v.blocks[v.inodes[i].addrs[IND]], s - IND - 1)
  {
  }

  lemma SlotInRange(sb: SuperBlock, v: Vol, owner: Owners, i: nat, s: nat)
    requires Typed(sb, v) && Referenced(sb, v, owner, {}) && Owned(sb, v, owner, {})
    requires i < sb.ninodes && s < NSLOTS && Slot(v, i, s) != 0
    ensures sb.datastart <= Slot(v, i, s) < sb.size
  {
    hide Slot;
  }

  lemma BackedAt(sb: SuperBlock, v: Vol, owner: Owners, i: nat, o: nat)
    requires Typed(sb, v) && Referenced(sb, v, owner, {}) && Owned(sb, v, owner, {}) && Backed(sb, v)
    requires i < sb.ninodes && o < v.inodes[i].size
    ensures o / BSIZE < MAXFILE && sb.datastart <= Slot(v, i, SlotOf(o / BSIZE)) < sb.size
    ensures Slot(v, i, SlotOf(o / BSIZE)) != 0
  {
    hide Slot;
    assert BSIZE * (o / BSIZE) <= o;
    assert Slot(v, i, SlotOf(o / BSIZE)) != 0;
    SlotInRange(sb, v, owner, i, SlotOf(o / BSIZE));
  }

  lemma BackedSize(sb: SuperBlock, v: Vol, i: nat)
    requires Typed(sb, v) && Backed(sb, v) && i < sb.ninodes
    ensures v.inodes[i].size <= MAXFILE * BSIZE
  {
  }

  // Bytes o..o+m of a file, all in one block.
  lemma ReadPart(v: Vol, i: nat, o: nat, m: nat)
    requires i < |v.inodes| && v.inodes[i].Valid() && v.inodes[i].size <= MAXFILE * BSIZE
    requires o + m <= v.inodes[i].size && o < v.inodes[i].size && o % BSIZE + m <= BSIZE
    requires 0 < Slot(v, i, SlotOf(o / BSIZE)) < |v.blocks|
    ensures Content(v, i)[o..o + m] == v.blocks[Slot(v, i, SlotOf(o / BSIZE))][o % BSIZE..o % BSIZE + m]
  {
    hide Slot;
    forall k | o <= k < o + m
      ensures k / BSIZE == o / BSIZE && k % BSIZE == o % BSIZE + (k - o)
    {
      SameBlock(o, k);
    }
  }

  // One round of readi.
  lemma ReadRound(sb: SuperBlock, v: Vol, owner: Owners, i: nat, off: nat, o: nat, m: nat)
    requires FsInv(sb, v, owner, {}, {}) && Backed(sb, v) && i < sb.ninodes
    requires off <= o < v.inodes[i].size <= MAXFILE * BSIZE && o + m <= v.inodes[i].size && o % BSIZE + m <= BSIZE
    ensures o / BSIZE < MAXFILE && 0 < Slot(v, i, SlotOf(o / BSIZE)) < |v.blocks|
    ensures Content(v, i)[off..o] + v.blocks[Slot(v, i, SlotOf(o / BSIZE))][o % BSIZE..o % BSIZE + m]
            == Content(v, i)[off..o + m]
  {
    BackedAt(sb, v, owner, i, o);
    hide Slot, Content, FsInv, Backed;
    ReadPart(v, i, o, m);
    NextSlice(Content(v, i), off, o, o + m);
  }

  lemma NextSlice(c: seq<Byte>, a: nat, b: nat, d: nat)
    requires a <= b <= d <= |c|
    ensures c[a..b] + c[b..d] == c[a..d]
  {
  }

  lemma SameBlock(o: nat, k: nat)
    requires o <= k && o % BSIZE + (k - o) < BSIZE
    ensures k / BSIZE == o / BSIZE && k % BSIZE == o % BSIZE + (k - o)
  {
  }

  lemma StaleMore(sb: SuperBlock, v: Vol, owner: Owners, stale: set<nat>, i: nat)
    requires FsInv(sb, v, owner, stale, {})
    ensures FsInv(sb, v, owner, stale + {i}, {})
  {
  }

  // The effect of one write of part at offset o of the file of inode i on the
  // bytes and slots of all files.
  ghost predicate Wrote(sb: SuperBlock, v: Vol, w: Vol, i: nat, o: nat, part: seq<Byte>)
    requires Typed(sb, v) && Typed(sb, w)
  {
    && (forall j: nat, k: nat {:trigger ByteAt(w, j, k)} | j < sb.ninodes && k < MAXFILE * BSIZE ::
          if j == i && o <= k < o + |part| then ByteAt(w, j, k) == part[k - o]
          else Slot(v, j, SlotOf(k / BSIZE)) != 0 ==> ByteAt(w, j, k) == ByteAt(v, j, k))
    && (forall j: nat, t: nat {:trigger Slot(w, j, t)} | j < sb.ninodes && t < NSLOTS && Slot(v, j, t) != 0 ::
          Slot(w, j, t) == Slot(v, j, t))
    && (i < sb.ninodes && o < MAXFILE * BSIZE ==> Slot(w, i, SlotOf(o / BSIZE)) != 0)
  }

  lemma WroteBytes(sb: SuperBlock, v: Vol, u: Vol, owner: Owners, i: nat, o: nat, part: seq<Byte>)
    requires Typed(sb, v) && Typed(sb, u) && Referenced(sb, u, owner, {}) && Owned(sb, u, owner, {})
    requires Extends(sb, v, u) && i < sb.ninodes && o < MAXFILE * BSIZE && o % BSIZE + |part| <= BSIZE
    requires 0 < Slot(u, i, SlotOf(o / BSIZE)) < sb.size
    requires var a := Slot(u, i, SlotOf(o / BSIZE));
      var w := u.(blocks := u.blocks[a := Patch(u.blocks[a], o % BSIZE, part)]);
      forall j: nat, t: nat | j < sb.ninodes && t < NSLOTS :: Slot(w, j, t) == Slot(u, j, t)
    ensures var a := Slot(u, i, SlotOf(o / BSIZE));
      Wrote(sb, v, u.(blocks := u.blocks[a := Patch(u.blocks[a], o % BSIZE, part)]), i, o, part)
  {
    var a := Slot(u, i, SlotOf(o / BSIZE));
    var data := Patch(u.blocks[a], o % BSIZE, part);
    var w := u.(blocks := u.blocks[a := data]);
    forall j: nat, k: nat | j < sb.ninodes && k < MAXFILE * BSIZE
      ensures if j == i && o <= k < o + |part| then ByteAt(w, j, k) == part[k - o]
              else Slot(v, j, SlotOf(k / BSIZE)) != 0 ==> ByteAt(w, j, k) == ByteAt(v, j, k)
    {
      StoreBytes(sb, u, owner, i, o / BSIZE, data, j, k);
      if Slot(v, j, SlotOf(k / BSIZE)) != 0 { ExtendsBytes(sb, v, u, j, k); }
      PatchAt(u, i, o, part, k);
      hide Slot;
    }
    hide Slot;
  }

  lemma PatchAt(u: Vol, i: nat, o: nat, part: seq<Byte>, k: nat)
    requires i < |u.inodes| && u.inodes[i].Valid() && o < MAXFILE * BSIZE && k < MAXFILE * BSIZE
    requires o % BSIZE + |part| <= BSIZE && 0 < Slot(u, i, SlotOf(o / BSIZE)) < |u.blocks|
    ensures var data := Patch(u.blocks[Slot(u, i, SlotOf(o / BSIZE))], o % BSIZE, part);
      && (o <= k < o + |part| ==> k / BSIZE == o / BSIZE && data[k % BSIZE] == part[k - o])
      && (k / BSIZE == o / BSIZE && !(o <= k < o + |part|) ==> data[k % BSIZE] == ByteAt(u, i, k))
  {
    hide Slot;
    if o <= k < o + |part| {
      SameBlock(o, k);
    } else if k / BSIZE == o / BSIZE {
      assert k % BSIZE < o % BSIZE || k % BSIZE >= o % BSIZE + |part|;
    }
  }

  // The blocks that one round of the writei loop logs.
  ghost function WriteLog(sb: SuperBlock, v: Vol, w: Vol, i: nat, bn: nat): set<nat>
    requires Typed(sb, v) && Typed(sb, w) && i < sb.ninodes && bn < MAXFILE
  {
    {Slot(w, i, SlotOf(bn))} + if Slot(v, i, SlotOf(bn)) == 0 then MapLog(sb, v, w, i, bn) else {}
  }

  datatype WriteResult = Written(n: nat) | Rejected | OutOfBlocks

  // File contents c after writing src at off <= |c|.
  function Overwrite(c: seq<Byte>, off: nat, src: seq<Byte>): seq<Byte>
    requires off <= |c|
  {
    c[..off] + src + if off + |src| < |c| then c[off + |src|..] else []
  }

  // A completed write: file i is overwritten or extended, all others are as
  // they were, and inode i changes only its size and addresses.
  ghost predicate WroteFile(sb: SuperBlock, v: Vol, w: Vol, i: nat, off: nat, src: seq<Byte>) {
    && Typed(sb, v) && Typed(sb, w) && Backed(sb, v) && Backed(sb, w)
    && i < sb.ninodes && off <= v.inodes[i].size
    && Content(w, i) == Overwrite(Content(v, i), off, src)
    && (forall j: nat | j < sb.ninodes && j != i :: w.inodes[j] == v.inodes[j] && Content(w, j) == Content(v, j))
    && w.inodes[i] == v.inodes[i].(size := w.inodes[i].size, addrs := w.inodes[i].addrs)
  }

  // After tot bytes of src were written at off.
  ghost predicate Progress(sb: SuperBlock, v: Vol, w: Vol, i: nat, off: nat, tot: nat, src: seq<Byte>) {
    && Typed(sb, v) && Typed(sb, w) && i < sb.ninodes && tot <= |src|
    && OnlyAddrs(v.inodes, w.inodes, i)
    && off <= v.inodes[i].size && off + |src| <= MAXFILE * BSIZE
    && (forall j: nat | j < sb.ninodes :: v.inodes[j].size <= MAXFILE * BSIZE)
    && (forall j: nat, k: nat {:trigger ByteAt(w, j, k)} | j < sb.ninodes && k < v.inodes[j].size && !(j == i && off <= k < off + tot) ::
          ByteAt(w, j, k) == ByteAt(v, j, k))
    && (forall k: nat {:trigger ByteAt(w, i, k)} | off <= k < off + tot :: ByteAt(w, i, k) == src[k - off])
    && (forall bn: nat {:trigger SlotOf(bn)} | BSIZE * bn < off + tot :: Slot(w, i, SlotOf(bn)) != 0)
  }

  lemma ProgressStart(sb: SuperBlock, v: Vol, i: nat, off: nat, src: seq<Byte>)
    requires Typed(sb, v) && Backed(sb, v) && i < sb.ninodes && off <= v.inodes[i].size
    requires off + |src| <= MAXFILE * BSIZE
    ensures Progress(sb, v, v, i, off, 0, src)
  {
    hide Slot;
  }

  lemma ProgressStep(sb: SuperBlock, v: Vol, u: Vol, w: Vol, i: nat, off: nat, tot: nat, m: nat, src: seq<Byte>)
    requires Progress(sb, v, u, i, off, tot, src) && Backed(sb, u) && Typed(sb, w) && 0 < m <= |src| - tot
    requires off % BSIZE + tot <= MAXFILE * BSIZE && (off + tot) % BSIZE + m <= BSIZE
    requires Wrote(sb, u, w, i, off + tot, src[tot..tot + m]) && OnlyAddrs(u.inodes, w.inodes, i)
    ensures Progress(sb, v, w, i, off, tot + m, src)
  {
    hide Slot;
    forall j: nat, k: nat | j < sb.ninodes && k < v.inodes[j].size && !(j == i && off <= k < off + tot + m)
      ensures ByteAt(w, j, k) == ByteAt(v, j, k)
    {
      assert BSIZE * (k / BSIZE) <= k < u.inodes[j].size;
      assert Slot(u, j, SlotOf(k / BSIZE)) != 0;
      assert ByteAt(u, j, k) == ByteAt(v, j, k);
    }
    forall k: nat | off <= k < off + tot + m
      ensures ByteAt(w, i, k) == src[k - off]
    {
      if k < off + tot {
        assert BSIZE * (k / BSIZE) <= k;
        assert Slot(u, i, SlotOf(k / BSIZE)) != 0;
        assert ByteAt(u, i, k) == src[k - off];
      }
    }
    forall bn: nat | BSIZE * bn < off + tot + m
      ensures Slot(w, i, SlotOf(bn)) != 0
    {
      if BSIZE * bn < off + tot {
        assert Slot(u, i, SlotOf(bn)) != 0;
      } else {
        assert bn == (off + tot) / BSIZE;
      }
    }
  }

  lemma ProgressSize(sb: SuperBlock, v: Vol, w: Vol, i: nat, off: nat, tot: nat, src: seq<Byte>)
    requires Progress(sb, v, w, i, off, tot, src)
    ensures w.inodes[i].size == v.inodes[i].size
  {
  }

  lemma WroteSlots(sb: SuperBlock, v: Vol, w: Vol, i: nat, o: nat, part: seq<Byte>)
    requires Typed(sb, v) && Typed(sb, w) && Wrote(sb, v, w, i, o, part) && i < sb.ninodes && o < MAXFILE * BSIZE
    ensures Slot(w, i, SlotOf(o / BSIZE)) != 0
    ensures v.inodes[i].addrs[IND] != 0 ==> w.inodes[i].addrs[IND] == v.inodes[i].addrs[IND]
  {
    SlotDirect(v, i, IND);
    SlotDirect(w, i, IND);
    hide Slot, ByteAt;
    var b := Slot(w, i, IND);
  }

  // A block that has to be allocated lies at or beyond the old end of file.
  lemma AllocatesBeyond(sb: SuperBlock, v: Vol, u: Vol, i: nat, off: nat, tot: nat, src: seq<Byte>)
    requires Progress(sb, v, u, i, off, tot, src) && Backed(sb, u) && tot < |src|
    ensures Slot(u, i, SlotOf((off + tot) / BSIZE)) == 0 ==> off + tot >= v.inodes[i].size
    ensures Slot(u, i, SlotOf((off + tot) / BSIZE)) == 0 ==> (off + tot) % BSIZE == 0
  {
    hide Slot;
    var bn := (off + tot) / BSIZE;
    if BSIZE * bn < off + tot || BSIZE * bn < v.inodes[i].size {
      assert Slot(u, i, SlotOf(bn)) != 0;
    }
  }

  // ---------- how many blocks a write logs ----------

  // File blocks that bytes off..off+n touch, for n > 0.
  function Spans(off: nat, n: nat): nat {
    (off % BSIZE + n + BSIZE - 1) / BSIZE
  }

  // Data blocks, the indirect block, bitmap blocks (one for each new data
  // block and one for a new indirect block, of nb there are), the inode block.
  // A write at an unaligned offset finds its first block allocated.
  function LogBound(off: nat, n: nat, nb: nat): nat {
    var s := Spans(off, n);
    var news := if off % BSIZE != 0 && s > 0 then s - 1 else s;
    s + 1 + (if news + 1 < nb then news + 1 else nb) + 1
  }

  // What the rounds so far have logged, by kind.
  datatype Acc = Acc(rounds: nat, news: nat, indNew: bool, data: set<nat>, bitmap: set<nat>, ind: set<nat>)

  function NoLog(): Acc {
    Acc(0, 0, false, {}, {}, {})
  }

  ghost predicate Accounted(l0: set<nat>, l: set<nat>, acc: Acc) {
    forall x | x in l :: x in l0 || x in acc.data || x in acc.bitmap || x in acc.ind
  }

  // After some rounds at an aligned or unaligned offset, with ind the indirect
  // block of the inode (0 if none).
  ghost predicate Logged(sb: SuperBlock, ind: nat, aligned: bool, l0: set<nat>, l: set<nat>, acc: Acc) {
    Accounted(l0, l, acc) && Counted(sb, ind, aligned, acc)
  }

  ghost predicate Counted(sb: SuperBlock, ind: nat, aligned: bool, acc: Acc) {
    && acc.news + (if aligned || acc.rounds == 0 then 0 else 1) <= acc.rounds
    && |acc.data| <= acc.rounds
    && |acc.bitmap| <= acc.news + (if acc.indNew then 1 else 0)
    && (forall x | x in acc.bitmap :: sb.bmapstart <= x < sb.bmapstart + sb.NBitmap())
    && acc.ind <= {ind}
    && (acc.ind != {} || acc.indNew ==> ind != 0)
  }

  // One round: block b, new if isNew; the indirect block was ind and is now ind'.
  lemma LoggedStep(sb: SuperBlock, ind: nat, ind': nat, b: nat, isNew: bool, bn: nat, aligned: bool,
                   l0: set<nat>, l: set<nat>, l': set<nat>, acc: Acc) returns (acc': Acc)
    requires Logged(sb, ind, aligned, l0, l, acc)
    requires ind != 0 ==> ind' == ind
    requires isNew && acc.rounds == 0 ==> aligned
    requires b < sb.size && (isNew && bn >= NDIRECT ==> 0 < ind' < sb.size)
    requires l' == l + RoundLog(sb, ind, ind', b, isNew, bn)
    ensures Logged(sb, ind', aligned, l0, l', acc') && acc'.rounds == acc.rounds + 1
  {
    var bits := RoundBits(sb, ind, ind', b, isNew, bn);
    BitsCount(sb, ind, ind', b, isNew, bn);
    hide RoundBits, Accounted, RoundLog, Counted;
    assert acc.ind <= {ind} && (acc.ind != {} ==> ind != 0) by { CountedInd(sb, ind, aligned, acc); }
    acc' := Acc(acc.rounds + 1, acc.news + (if isNew then 1 else 0), acc.indNew || (isNew && bn >= NDIRECT && ind == 0),
                acc.data + {b}, acc.bitmap + bits, if isNew && bn >= NDIRECT then {ind'} else acc.ind);
    AccountedStep(sb, ind, ind', b, isNew, bn, l0, l, l', acc, acc');
    CountedStep(sb, ind, ind', b, isNew, bn >= NDIRECT, aligned, bits, acc, acc');
  }

  lemma CountedInd(sb: SuperBlock, ind: nat, aligned: bool, acc: Acc)
    requires Counted(sb, ind, aligned, acc)
    ensures acc.ind <= {ind} && (acc.ind != {} ==> ind != 0)
  {
  }

  lemma CountedStep(sb: SuperBlock, ind: nat, ind': nat, b: nat, isNew: bool, far: bool, aligned: bool,
                    bits: set<nat>, acc: Acc, acc': Acc)
    requires Counted(sb, ind, aligned, acc) && (ind != 0 ==> ind' == ind) && (isNew && acc.rounds == 0 ==> aligned)
    requires isNew && far ==> ind' != 0
    requires |bits| <= (if isNew then 1 else 0) + (if isNew && far && ind == 0 then 1 else 0)
    requires forall x | x in bits :: sb.bmapstart <= x < sb.bmapstart + sb.NBitmap()
    requires acc' == Acc(acc.rounds + 1, acc.news + (if isNew then 1 else 0), acc.indNew || (isNew && far && ind == 0),
                         acc.data + {b}, acc.bitmap + bits, if isNew && far then {ind'} else acc.ind)
    ensures Counted(sb, ind', aligned, acc')
  {
    UnionCount(acc.data, {b});
    UnionCount(acc.bitmap, bits);
    assert forall x | x in acc'.bitmap :: x in acc.bitmap || x in bits;
  }

  lemma AccountedStep(sb: SuperBlock, ind: nat, ind': nat, b: nat, isNew: bool, bn: nat,
                      l0: set<nat>, l: set<nat>, l': set<nat>, acc: Acc, acc': Acc)
    requires Accounted(l0, l, acc) && l' == l + RoundLog(sb, ind, ind', b, isNew, bn)
    requires acc'.data == acc.data + {b} && acc'.bitmap == acc.bitmap + RoundBits(sb, ind, ind', b, isNew, bn)
    requires acc.ind <= {ind} && (acc.ind != {} ==> ind != 0) && (ind != 0 ==> ind' == ind)
    requires acc'.ind == if isNew && bn >= NDIRECT then {ind'} else acc.ind
    ensures Accounted(l0, l', acc')
  {
    hide RoundBits;
  }

  // Bitmap blocks of the new data block and of a new indirect block.
  function RoundBits(sb: SuperBlock, ind: nat, ind': nat, b: nat, isNew: bool, bn: nat): set<nat> {
    (if isNew then {sb.BBlock(b)} else {}) + if isNew && bn >= NDIRECT && ind == 0 then {sb.BBlock(ind')} else {}
  }

  lemma BitsCount(sb: SuperBlock, ind: nat, ind': nat, b: nat, isNew: bool, bn: nat)
    requires b < sb.size && (isNew && bn >= NDIRECT ==> ind' < sb.size)
    ensures var bits := RoundBits(sb, ind, ind', b, isNew, bn);
      && |bits| <= (if isNew then 1 else 0) + (if isNew && bn >= NDIRECT && ind == 0 then 1 else 0)
      && forall x | x in bits :: sb.bmapstart <= x < sb.bmapstart + sb.NBitmap()
  {
  }

  function RoundLog(sb: SuperBlock, ind: nat, ind': nat, b: nat, isNew: bool, bn: nat): set<nat> {
    {b} + RoundBits(sb, ind, ind', b, isNew, bn) + if isNew && bn >= NDIRECT then {ind'} else {}
  }

  // The same for one round of writei, from v to w.
  lemma WriteLogged(sb: SuperBlock, v: Vol, w: Vol, owner: Owners, i: nat, bn: nat, aligned: bool,
                    l0: set<nat>, l: set<nat>, l': set<nat>, acc: Acc) returns (acc': Acc)
    requires Typed(sb, v) && Typed(sb, w) && Referenced(sb, w, owner, {}) && Owned(sb, w, owner, {})
    requires i < sb.ninodes && bn < MAXFILE
    requires Logged(sb, v.inodes[i].addrs[IND], aligned, l0, l, acc)
    requires v.inodes[i].addrs[IND] != 0 ==> w.inodes[i].addrs[IND] == v.inodes[i].addrs[IND]
    requires Slot(w, i, SlotOf(bn)) != 0
    requires Slot(v, i, SlotOf(bn)) == 0 && acc.rounds == 0 ==> aligned
    requires l' == l + WriteLog(sb, v, w, i, bn)
    ensures Logged(sb, w.inodes[i].addrs[IND], aligned, l0, l', acc') && acc'.rounds == acc.rounds + 1
  {
    hide Word, Logged;
    SlotInRange(sb, w, owner, i, SlotOf(bn));
    if bn >= NDIRECT {
      EntryNeedsIndirect(w, i, SlotOf(bn));
      SlotDirect(w, i, IND);
      SlotInRange(sb, w, owner, i, IND);
    }
    hide Slot, Referenced, Owned;
    acc' := LoggedStep(sb, v.inodes[i].addrs[IND], w.inodes[i].addrs[IND], Slot(w, i, SlotOf(bn)),
                       Slot(v, i, SlotOf(bn)) == 0, bn, aligned, l0, l, l', acc);
  }

  lemma LoggedStart(sb: SuperBlock, ind: nat, aligned: bool, l: set<nat>)
    ensures Logged(sb, ind, aligned, l, l, NoLog())
  {
  }

  lemma SpansNext(off: nat, tot: nat, m: nat)
    requires 0 < m && (off + tot) % BSIZE + m <= BSIZE && (tot == 0 || (off + tot) % BSIZE == 0)
    ensures tot > 0 ==> Spans(off, tot) > 0
    ensures Spans(off, tot + m) == (if tot == 0 then 0 else Spans(off, tot)) + 1
  {
    if tot > 0 {
      assert (off % BSIZE + tot) % BSIZE == 0;
    }
  }

  lemma {:induction false} IntervalCount(s: set<nat>, a: nat, c: nat)
    requires forall x | x in s :: a <= x < a + c
    ensures |s| <= c
  {
    if c == 0 {
      assert s == {};
    } else {
      IntervalCount(s - {a + c - 1}, a, c - 1);
    }
  }

  lemma LoggedEnd(sb: SuperBlock, ind: nat, i: nat, off: nat, n: nat, l0: set<nat>, l: set<nat>, acc: Acc)
    requires Logged(sb, ind, off % BSIZE == 0, l0, l, acc)
    requires acc.rounds == if n == 0 then 0 else Spans(off, n)
    ensures |l - l0| <= LogBound(off, n, sb.NBitmap())
    ensures |(l + {sb.IBlock(i)}) - l0| <= LogBound(off, n, sb.NBitmap())
  {
    hide Accounted;
    IntervalCount(acc.bitmap, sb.bmapstart, sb.NBitmap());
    AccountedSize(ind, sb.IBlock(i), l0, l, acc);
  }

  lemma AccountedSize(ind: nat, x: nat, l0: set<nat>, l: set<nat>, acc: Acc)
    requires Accounted(l0, l, acc) && acc.ind <= {ind}
    ensures |l - l0| <= |acc.data| + |acc.bitmap| + 2
    ensures |(l + {x}) - l0| <= |acc.data| + |acc.bitmap| + 2
  {
    var all := acc.data + acc.bitmap + acc.ind + {x};
    SubsetCount(acc.ind, {ind});
    UnionCount(acc.data, acc.bitmap);
    UnionCount(acc.data + acc.bitmap, acc.ind);
    UnionCount(acc.data + acc.bitmap + acc.ind, {x});
    SubsetCount(l - l0, all);
    SubsetCount((l + {x}) - l0, all);
  }

  // ---------- the end of writei ----------

  // The in-core size grows to the bytes written; slots do not change.
  lemma Resize(sb: SuperBlock, u: Vol, owner: Owners, v: Vol, i: nat, off: nat, src: seq<Byte>)
    requires FsInv(sb, u, owner, {i}, {}) && Backed(sb, u) && Progress(sb, v, u, i, off, |src|, src)
    ensures var w := u.(inodes := u.inodes[i := u.inodes[i].(size := off + |src|)]);
      FsInv(sb, w, owner, {i}, {}) && Backed(sb, w)
      && (forall j: nat, t: nat | j < sb.ninodes && t < NSLOTS :: Slot(w, j, t) == Slot(u, j, t))
  {
    var w := u.(inodes := u.inodes[i := u.inodes[i].(size := off + |src|)]);
    assert forall j: nat, t: nat | j < sb.ninodes && t < NSLOTS :: Slot(w, j, t) == Slot(u, j, t);
    hide Slot, ByteAt, DecodeInode;
    BitmapFrame(sb, u.blocks, w.blocks, owner.Keys);
  }

  lemma FinishSame(sb: SuperBlock, v: Vol, w: Vol, i: nat, off: nat, src: seq<Byte>)
    requires Progress(sb, v, w, i, off, |src|, src) && Backed(sb, v) && Backed(sb, w)
    requires off + |src| <= w.inodes[i].size
    ensures WroteFile(sb, v, w, i, off, src)
  {
    hide Slot, ByteAt;
  }

  lemma GrownBytes(sb: SuperBlock, u: Vol, g: Vol, w: Vol)
    requires Typed(sb, u) && Typed(sb, g) && Typed(sb, w) && g.blocks == u.blocks && Backed(sb, g)
    requires forall j: nat, t: nat | j < sb.ninodes && t < NSLOTS :: Slot(g, j, t) == Slot(u, j, t)
    requires Extends(sb, g, w)
    ensures forall j: nat, k: nat | j < sb.ninodes && k < w.inodes[j].size :: ByteAt(w, j, k) == ByteAt(u, j, k)
  {
    hide Slot;
    forall j: nat, k: nat | j < sb.ninodes && k < w.inodes[j].size
      ensures ByteAt(w, j, k) == ByteAt(u, j, k)
    {
      assert BSIZE * (k / BSIZE) <= k < g.inodes[j].size;
      assert Slot(g, j, SlotOf(k / BSIZE)) != 0;
      ExtendsBytes(sb, g, w, j, k);
    }
  }

  lemma FinishGrown(sb: SuperBlock, v: Vol, u: Vol, w: Vol, i: nat, off: nat, src: seq<Byte>)
    requires Progress(sb, v, u, i, off, |src|, src) && Backed(sb, v) && Backed(sb, u) && Typed(sb, w) && Backed(sb, w)
    requires off + |src| > u.inodes[i].size
    requires w.inodes == u.inodes[i := u.inodes[i].(size := off + |src|)]
    requires forall j: nat, k: nat | j < sb.ninodes && k < w.inodes[j].size :: ByteAt(w, j, k) == ByteAt(u, j, k)
    ensures WroteFile(sb, v, w, i, off, src)
  {
    hide Slot, ByteAt;
  }

  // Inode i with its new size.
  function Grown(u: Vol, i: nat, size: Word32): Vol
    requires i < |u.inodes|
  {
    u.(inodes := u.inodes[i := u.inodes[i].(size := size)])
  }

  // The loop of writei, then the new size, then iupdate.
  lemma GrowInode(sb: SuperBlock, v0: Vol, owner0: Owners, l0: set<nat>, u: Vol, owner: Owners, l: set<nat>, i: nat,
                  off: nat, src: seq<Byte>)
    requires Progress(sb, v0, u, i, off, |src|, src) && Backed(sb, v0) && Backed(sb, u)
    requires off + |src| > u.inodes[i].size
    requires FsInv(sb, u, owner, {}, {}) || FsInv(sb, u, owner, {i}, {})
    requires Tracked(sb, v0.blocks, l0, u.blocks, l)
    requires Filling(sb, v0, owner0, u, owner, i, off / BSIZE, PastEnd(off, |src|))
    ensures Typed(sb, Grown(u, i, off + |src|))
    ensures var w := Updated(sb, Grown(u, i, off + |src|), i);
      && FsInv(sb, w, owner, {}, {}) && Backed(sb, w) && WroteFile(sb, v0, w, i, off, src)
      && Tracked(sb, v0.blocks, l0, w.blocks, l + {sb.IBlock(i)})
      && Filling(sb, v0, owner0, w, owner, i, off / BSIZE, PastEnd(off, |src|))
  {
    hide Slot, Referenced, Owned, Synced, BitmapIs, Backed, Progress, WroteFile, Extends, Tracked, Filling, PastEnd;
    ProgressTyped(sb, v0, u, i, off, |src|, src);
    StaleMore(sb, u, owner, if FsInv(sb, u, owner, {}, {}) then {} else {i}, i);
    assert {} + {i} == {i} == {i} + {i} && {i} - {i} == {};
    Resize(sb, u, owner, v0, i, off, src);
    var g := Grown(u, i, off + |src|);
    var w := Updated(sb, g, i);
    UpdatedKeeps(sb, g, owner, {i}, i);
    UpdatedSlots(sb, g, owner, {}, i);
    FillingUpdate(sb, v0, owner0, u, w, owner, i, off / BSIZE, PastEnd(off, |src|));
    TrackedPut(sb, g.blocks, l, sb.IBlock(i), w.blocks[sb.IBlock(i)]);
    TrackedTrans(sb, v0.blocks, l0, g.blocks, l, w.blocks, l + {sb.IBlock(i)});
    GrownBytes(sb, u, g, w);
    FinishGrown(sb, v0, u, w, i, off, src);
  }

  // ---------- truncation ----------

  // owner is owner0 without some of the blocks of inode i.
  ghost predicate OnlyDrops(owner0: Owners, owner: Owners, i: nat) {
    && (forall b | b in owner :: b in owner0 && owner[b] == owner0[b])
    && (forall b | b in owner0 && owner0[b].0 != i :: b in owner)
  }

  // bfree logs the bitmap blocks that it changes, and no others.
  ghost predicate BitmapLogged(sb: SuperBlock, b0: seq<Block>, l0: set<nat>, b1: seq<Block>, l1: set<nat>) {
    && sb.Valid() && |b0| == sb.size && Tracked(sb, b0, l0, b1, l1)
    && forall b | b in l1 && b !in l0 :: sb.bmapstart <= b < sb.bmapstart + sb.NBitmap()
  }

  lemma FreeLogged(sb: SuperBlock, b0: seq<Block>, l0: set<nat>, b: nat, i: nat)
    requires sb.Valid() && |b0| == sb.size && b < sb.size && i < sb.ninodes
    ensures BitmapLogged(sb, b0, l0, FlipBlock(sb, b0, b), l0 + {sb.BBlock(b)})
  {
    assert sb.inodestart <= sb.IBlock(i) < sb.bmapstart <= sb.BBlock(b);
    hide FlipOf;
  }

  // With the inode block that iupdate logs.
  lemma TruncLogged(sb: SuperBlock, b0: seq<Block>, l0: set<nat>, v: Vol, l: set<nat>, i: nat)
    requires Typed(sb, v) && i < sb.ninodes && BitmapLogged(sb, b0, l0, v.blocks, l)
    ensures Tracked(sb, b0, l0, Updated(sb, v, i).blocks, l + {sb.IBlock(i)})
    ensures |l + {sb.IBlock(i)} - l0| <= sb.NBitmap() + 1
  {
    hide EncodeInode;
    IntervalCount(l - l0, sb.bmapstart, sb.NBitmap());
    UnionCount(l - l0, {sb.IBlock(i)});
    SubsetCount(l + {sb.IBlock(i)} - l0, l - l0 + {sb.IBlock(i)});
  }

  ghost function Others(owner: Owners, i: nat): Owners {
    map b | b in owner && owner[b].0 != i :: owner[b]
  }

  // Once all slots of inode i are empty, only the blocks of others are owned.
  lemma DropsAll(sb: SuperBlock, v: Vol, owner0: Owners, owner: Owners, i: nat)
    requires Typed(sb, v) && Owned(sb, v, owner, {}) && OnlyDrops(owner0, owner, i) && i < sb.ninodes
    requires v.inodes[i].addrs == seq(NDIRECT + 1, _ => 0)
    ensures owner == Others(owner0, i)
  {
    assert 0 < sb.IBlock(i) < sb.datastart;
    forall b | b in owner
      ensures owner[b].0 != i
    {
      assert Slot(v, owner[b].0, owner[b].1) == b;
    }
  }

  lemma SetSize(sb: SuperBlock, v: Vol, owner: Owners, i: nat, size: Word32)
    requires FsInv(sb, v, owner, {i}, {}) && i < sb.ninodes
    ensures var w := v.(inodes := v.inodes[i := v.inodes[i].(size := size)]);
      && FsInv(sb, w, owner, {i}, {})
      && (forall j: nat, t: nat | j < sb.ninodes && t < NSLOTS :: Slot(w, j, t) == Slot(v, j, t))
  {
    var w := v.(inodes := v.inodes[i := v.inodes[i].(size := size)]);
    assert forall j: nat, t: nat | j < sb.ninodes && t < NSLOTS :: Slot(w, j, t) == Slot(v, j, t);
    hide Slot, DecodeInode, BitOf;
  }

  // Bitmap and other files after the truncation of inode i.
  lemma TruncDone(sb: SuperBlock, v: Vol, w: Vol, owner0: Owners, owner: Owners, i: nat)
    requires FsInv(sb, v, owner0, {}, {}) && Backed(sb, v) && FsInv(sb, w, owner, {}, {}) && i < sb.ninodes
    requires owner == Others(owner0, i)
    requires w.inodes == v.inodes[i := v.inodes[i].(size := 0, addrs := w.inodes[i].addrs)]
    requires forall b | sb.datastart <= b < sb.size :: w.blocks[b] == v.blocks[b]
    ensures Backed(sb, w)
    ensures forall b: nat | b < sb.size ::
      Bit(sb, w.blocks, b) <==> Bit(sb, v.blocks, b) && !(b in owner0 && owner0[b].0 == i)
    ensures forall j: nat | j < sb.ninodes && j != i :: Content(w, j) == Content(v, j)
  {
    hide BitOf, Synced, Word;
    forall j: nat | j < sb.ninodes && j != i
      ensures Content(w, j) == Content(v, j)
      ensures forall t: nat | t < NSLOTS :: Slot(w, j, t) == Slot(v, j, t)
    {
      SameFile(sb, v, w, owner0, j);
    }
    hide Slot, Content;
    assert forall b | b in owner0 :: sb.datastart <= b;
    forall j: nat, bn: nat | j < sb.ninodes && BSIZE * bn < w.inodes[j].size
      ensures Slot(w, j, SlotOf(bn)) != 0
    {
      assert j != i && w.inodes[j].size == v.inodes[j].size;
      assert Slot(v, j, SlotOf(bn)) != 0;
      SameFile(sb, v, w, owner0, j);
    }
  }

  lemma ClearedStart(inodes: seq<Inode>, i: nat)
    requires i < |inodes| && inodes[i].Valid()
    ensures Cleared(inodes, inodes, i, 0)
  {
    var none: seq<Word32> := seq(0, _ => 0);
    assert none + inodes[i].addrs[0..] == inodes[i].addrs;
  }

  lemma ClearedStep(inodes: seq<Inode>, mid: seq<Inode>, i: nat, s: nat)
    requires Cleared(inodes, mid, i, s) && s <= NDIRECT
    ensures Cleared(inodes, mid[i := mid[i].(addrs := mid[i].addrs[s := 0])], i, s + 1)
  {
    var zeros: seq<Word32> := seq(s + 1, _ => 0);
    assert mid[i].addrs[s := 0] == zeros + inodes[i].addrs[s + 1..];
  }

  // After the first s slots of inode i were freed, from v0.
  ghost predicate Truncating(sb: SuperBlock, v0: Vol, owner0: Owners, l0: set<nat>, v: Vol, owner: Owners, l: set<nat>,
                             i: nat, s: nat)
  {
    && FsInv(sb, v, owner, {i}, {}) && i < sb.ninodes && |v0.blocks| == sb.size
    && Cleared(v0.inodes, v.inodes, i, s) && OnlyDrops(owner0, owner, i)
    && (forall b | sb.datastart <= b < sb.size :: v.blocks[b] == v0.blocks[b])
    && BitmapLogged(sb, v0.blocks, l0, v.blocks, l)
  }

  lemma TruncStart(sb: SuperBlock, v: Vol, owner: Owners, l: set<nat>, i: nat)
    requires FsInv(sb, v, owner, {}, {}) && i < sb.ninodes
    ensures Truncating(sb, v, owner, l, v, owner, l, i, 0)
  {
    hide Slot, Referenced, Owned, Synced, BitmapIs;
    StaleMore(sb, v, owner, {}, i);
    assert {} + {i} == {i};
    ClearedStart(v.inodes, i);
  }

  lemma TruncatingInv(sb: SuperBlock, v0: Vol, owner0: Owners, l0: set<nat>, v: Vol, owner: Owners, l: set<nat>, i: nat,
                      s: nat)
    requires Truncating(sb, v0, owner0, l0, v, owner, l, i, s)
    ensures FsInv(sb, v, owner, {i}, {}) && Typed(sb, v)
  {
  }

  lemma TruncStep(sb: SuperBlock, v0: Vol, owner0: Owners, l0: set<nat>, u: Vol, owner1: Owners, l: set<nat>, v: Vol,
                  owner: Owners, l': set<nat>, i: nat, s: nat)
    requires Truncating(sb, v0, owner0, l0, u, owner1, l, i, s) && s <= IND && Typed(sb, u)
    requires FsInv(sb, v, owner, {i}, {})
    requires v.inodes == u.inodes[i := u.inodes[i].(addrs := u.inodes[i].addrs[s := 0])]
    requires forall b | sb.datastart <= b < sb.size :: v.blocks[b] == u.blocks[b]
    requires OnlyDrops(owner1, owner, i) && BitmapLogged(sb, u.blocks, l, v.blocks, l')
    ensures Truncating(sb, v0, owner0, l0, v, owner, l', i, s + 1)
  {
    hide Slot, Referenced, Owned, Synced, BitmapIs;
    ClearedStep(v0.inodes, u.inodes, i, s);
  }

  lemma TruncEnd(sb: SuperBlock, v0: Vol, owner0: Owners, l0: set<nat>, u: Vol, owner: Owners, l: set<nat>, i: nat)
    requires FsInv(sb, v0, owner0, {}, {}) && Backed(sb, v0)
    requires Truncating(sb, v0, owner0, l0, u, owner, l, i, NDIRECT + 1)
    ensures Typed(sb, Grown(u, i, 0)) && owner == Others(owner0, i)
    ensures var w := Updated(sb, Grown(u, i, 0), i);
      && FsInv(sb, w, owner, {}, {}) && Typed(sb, w) && Backed(sb, w)
      && w.inodes == v0.inodes[i := v0.inodes[i].(size := 0, addrs := seq(NDIRECT + 1, _ => 0))]
      && (forall b: nat | b < sb.size ::
            Bit(sb, w.blocks, b) <==> Bit(sb, v0.blocks, b) && !(b in owner0 && owner0[b].0 == i))
      && (forall j: nat | j < sb.ninodes && j != i :: Content(w, j) == Content(v0, j))
      && Tracked(sb, v0.blocks, l0, w.blocks, l + {sb.IBlock(i)})
    ensures |l + {sb.IBlock(i)} - l0| <= sb.NBitmap() + 1
  {
    hide Slot, Referenced, Owned, Synced, BitmapIs, BitOf, Content, BitmapLogged;
    DropsAll(sb, u, owner0, owner, i);
    SetSize(sb, u, owner, i, 0);
    var g := Grown(u, i, 0);
    UpdatedKeeps(sb, g, owner, {i}, i);
    assert {i} - {i} == {};
    TruncLogged(sb, v0.blocks, l0, g, l, i);
    TruncDone(sb, v0, Updated(sb, g, i), owner0, owner, i);
  }

  // Files whose inode and data blocks are unchanged keep their contents.
  lemma SameFile(sb: SuperBlock, v: Vol, w: Vol, owner: Owners, j: nat)
    requires FsInv(sb, v, owner, {}, {}) && Backed(sb, v) && Typed(sb, w) && j < sb.ninodes
    requires w.inodes[j] == v.inodes[j]
    requires forall b | sb.datastart <= b < sb.size :: w.blocks[b] == v.blocks[b]
    ensures forall t: nat | t < NSLOTS :: Slot(w, j, t) == Slot(v, j, t)
    ensures Content(w, j) == Content(v, j)
  {
    hide BitmapIs, Synced, Word;
    forall t: nat | t < NSLOTS
      ensures Slot(w, j, t) == Slot(v, j, t)
    {
      if v.inodes[j].addrs[IND] != 0 { IndirectOwned(sb, v, owner, {}, j); }
      SlotFrame(v.inodes[j], v.blocks, w.blocks, t);
    }
    hide Slot;
    forall k: nat | k < v.inodes[j].size
      ensures ByteAt(w, j, k) == ByteAt(v, j, k)
    {
      BackedAt(sb, v, owner, j, k);
    }
  }

  // The first s addresses of inode i are cleared, nothing else is changed.
  ghost predicate Cleared(inodes: seq<Inode>, inodes': seq<Inode>, i: nat, s: nat) {
    && |inodes| == |inodes'| && i < |inodes| && inodes[i].Valid() && s <= NDIRECT + 1
    && inodes' == inodes[i := inodes[i].(addrs := seq(s, _ => 0) + inodes[i].addrs[s..])]
  }

  // ---------- file.c ----------

  const CHUNK: nat := (MAXOPBLOCKS - 1 - 1 - 2) / 2 * BSIZE

  // Consecutive writes are one write of the concatenation.
  lemma WroteTwice(sb: SuperBlock, u: Vol, v: Vol, w: Vol, i: nat, off: nat, a: seq<Byte>, b: seq<Byte>)
    requires WroteFile(sb, u, v, i, off, a) && WroteFile(sb, v, w, i, off + |a|, b)
    ensures WroteFile(sb, u, w, i, off, a + b)
  {
    hide Content;
    var c := Content(u, i);
    assert Overwrite(Overwrite(c, off, a), off + |a|, b) == Overwrite(c, off, a + b);
  }

  // readi after writei: the bytes just written, and the old bytes elsewhere.
  lemma WriteThenRead(sb: SuperBlock, v: Vol, w: Vol, i: nat, off: nat, src: seq<Byte>)
    requires WroteFile(sb, v, w, i, off, src)
    ensures off + |src| <= w.inodes[i].size == (if off + |src| > v.inodes[i].size then off + |src| else v.inodes[i].size)
    ensures Content(w, i)[off..off + |src|] == src
    ensures Content(w, i)[..off] == Content(v, i)[..off]
    ensures off + |src| <= v.inodes[i].size ==> Content(w, i)[off + |src|..] == Content(v, i)[off + |src|..]
  {
    hide Content;
    assert |Content(w, i)| == w.inodes[i].size;
  }

  // Bytes of a chunk when left bytes remain.
  function ChunkSize(left: nat): nat { if left > CHUNK then CHUNK else left }

  // After chunks of k bytes together.
  ghost predicate Chunked(sb: SuperBlock, v0: Vol, owner0: Owners, v: Vol, owner: Owners, i: nat, off: nat, k: nat,
                          addr: seq<Byte>)
  {
    && k <= |addr|
    && if k == 0 then v == v0 && owner == owner0
       else WroteFile(sb, v0, v, i, off, addr[..k]) && Filling(sb, v0, owner0, v, owner, i, off / BSIZE, PastEnd(off, k))
  }

  lemma NoChunk(sb: SuperBlock, v0: Vol, owner0: Owners, i: nat, off: nat, addr: seq<Byte>)
    ensures Chunked(sb, v0, owner0, v0, owner0, i, off, 0, addr)
  {
  }

  lemma ChunkNext(sb: SuperBlock, v0: Vol, owner0: Owners, v: Vol, owner1: Owners, w: Vol, owner: Owners, i: nat,
                  off: nat, k: nat, n: nat, addr: seq<Byte>)
    requires Chunked(sb, v0, owner0, v, owner1, i, off, k, addr) && 0 < n && k + n <= |addr|
    requires off + k + n <= MAXFILE * BSIZE && WroteFile(sb, v, w, i, off + k, addr[k..k + n])
    requires Filling(sb, v, owner1, w, owner, i, (off + k) / BSIZE, PastEnd(off + k, n))
    ensures Chunked(sb, v0, owner0, w, owner, i, off, k + n, addr)
  {
    hide WroteFile, Filling;
    assert addr[..k + n] == addr[..k] + addr[k..k + n];
    ChunkEnds(off, k, n);
    hide PastEnd;
    if k > 0 {
      WroteTwice(sb, v0, v, w, i, off, addr[..k], addr[k..k + n]);
      ChunkJoins(sb, v0, owner0, v, owner1, w, owner, i, off / BSIZE, (off + k) / BSIZE, PastEnd(off, k),
                 PastEnd(off, k + n));
    }
  }

  lemma ChunkFull(sb: SuperBlock, v0: Vol, owner0: Owners, v: Vol, owner: Owners, i: nat, off: nat, k: nat, n: nat,
                  addr: seq<Byte>)
    requires Chunked(sb, v0, owner0, v, owner, i, off, k, addr) && 0 < n && k + n <= |addr|
    requires i < |v0.inodes| && v0.inodes[i].Valid() && i < |v.inodes| && v.inodes[i].Valid()
    requires off + k <= v.inodes[i].size && off + k + n <= MAXFILE * BSIZE && PastEnd(off + k, n) <= MAXFILE
    requires Space(sb, owner) < Needed(v, i, (off + k) / BSIZE, PastEnd(off + k, n))
    ensures off <= v0.inodes[i].size && PastEnd(off, k + n) <= MAXFILE
    ensures Space(sb, owner0) < Needed(v0, i, off / BSIZE, PastEnd(off, k + n))
  {
    ChunkEnds(off, k, n);
    if k > 0 { WroteFrom(sb, v0, v, i, off, addr[..k]); }
    hide WroteFile, Filling, PastEnd, Needed;
    if k > 0 {
      ChunkSpace(sb, v0, owner0, v, owner, i, off / BSIZE, (off + k) / BSIZE, PastEnd(off, k), PastEnd(off, k + n));
    }
  }

  lemma ChunkEnd(sb: SuperBlock, v0: Vol, owner0: Owners, v: Vol, owner: Owners, i: nat, off: nat, k: nat,
                 addr: seq<Byte>)
    requires Chunked(sb, v0, owner0, v, owner, i, off, k, addr) && i < |v0.inodes| && v0.inodes[i].Valid()
    ensures k == 0 ==> v == v0
    ensures k > 0 ==> off <= v0.inodes[i].size && WroteFile(sb, v0, v, i, off, addr[..k])
    ensures k > 0 ==> PastEnd(off, k) <= MAXFILE && Space(sb, owner0) >= Needed(v0, i, off / BSIZE, PastEnd(off, k))
  {
    if k > 0 { WroteFrom(sb, v0, v, i, off, addr[..k]); }
    hide WroteFile, Filling, PastEnd;
    if k > 0 { FillingEnd(sb, v0, owner0, v, owner, i, off / BSIZE, PastEnd(off, k)); }
  }

  lemma WroteFrom(sb: SuperBlock, v: Vol, w: Vol, i: nat, off: nat, a: seq<Byte>)
    requires WroteFile(sb, v, w, i, off, a)
    ensures i < |v.inodes| && off <= v.inodes[i].size
  {
  }

  lemma SameType(sb: SuperBlock, v: Vol, w: Vol, i: nat, off: nat, a: seq<Byte>)
    requires WroteFile(sb, v, w, i, off, a)
    ensures i < |v.inodes| && i < |w.inodes| && v.inodes[i].Valid() && w.inodes[i].Valid()
    ensures w.inodes[i].Type() == v.inodes[i].Type()
  {
  }

  // A transaction within its reservation, and within the nine blocks at which the
  // log cannot panic if there are at most three bitmap blocks.
  predicate FitsOp(sb: SuperBlock, l: set<nat>) {
    |l| <= MAXOPBLOCKS && (sb.NBitmap() <= 3 ==> |l| < MAXOPBLOCKS)
  }

  // Only blocks that some transaction logged differ.
  ghost predicate Covered(b0: seq<Block>, b1: seq<Block>, ts: seq<set<nat>>) {
    |b1| == |b0| && forall b | 0 <= b < |b0| && b1[b] != b0[b] :: exists k :: 0 <= k < |ts| && b in ts[k]
  }

  lemma CoveredNone(b0: seq<Block>)
    ensures Covered(b0, b0, [])
  {
  }

  lemma CoveredMore(sb: SuperBlock, b0: seq<Block>, b1: seq<Block>, ts: seq<set<nat>>, b2: seq<Block>, l: set<nat>)
    requires Covered(b0, b1, ts) && Tracked(sb, b1, {}, b2, l)
    ensures Covered(b0, b2, ts + [l])
  {
    forall b | 0 <= b < |b0| && b2[b] != b0[b]
      ensures exists k :: 0 <= k < |ts + [l]| && b in (ts + [l])[k]
    {
      if b1[b] != b0[b] {
        var k :| 0 <= k < |ts| && b in ts[k];
        assert b in (ts + [l])[k];
      } else {
        assert b in (ts + [l])[|ts|];
      }
    }
  }

  // A chunk of filewrite fits one transaction of MAXOPBLOCKS blocks however
  // many bitmap blocks there are, and fits MAXOPBLOCKS - 1 blocks, at which the
  // log cannot panic, when there are at most three.
  lemma ChunkBound(off: nat, n: nat, nb: nat)
    requires n <= CHUNK
    ensures LogBound(off, n, nb) <= MAXOPBLOCKS
    ensures nb <= 3 ==> LogBound(off, n, nb) < MAXOPBLOCKS
  {
  }

  // ---------- one round of the loop of writei ----------

  // A round from v to w, where no balloc failed.
  ghost predicate BlockWritten(sb: SuperBlock, v: Vol, owner1: Owners, l: set<nat>, w: Vol, owner: Owners, l': set<nat>,
                               i: nat, o: nat, part: seq<Byte>)
  {
    && Typed(sb, v) && Typed(sb, w) && i < sb.ninodes && o < MAXFILE * BSIZE
    && Wrote(sb, v, w, i, o, part) && l' == l + WriteLog(sb, v, w, i, o / BSIZE)
    && Filled(v, w, i, o / BSIZE, o / BSIZE + 1) && |owner| == |owner1| + Needed(v, i, o / BSIZE, o / BSIZE + 1)
  }

  // The state of the loop after tot bytes, from v0 with l0 logged.
  ghost predicate InLoop(sb: SuperBlock, v0: Vol, owner0: Owners, l0: set<nat>, v: Vol, owner: Owners, l: set<nat>,
                         i: nat, off: nat, tot: nat, src: seq<Byte>, acc: Acc)
  {
    && tot <= |src| && (tot < |src| ==> tot == 0 || (off + tot) % BSIZE == 0)
    && Progress(sb, v0, v, i, off, tot, src) && Backed(sb, v)
    && ((FsInv(sb, v, owner, {}, {}) && v.inodes == v0.inodes)
        || (FsInv(sb, v, owner, {i}, {}) && off + tot > v0.inodes[i].size))
    && acc.rounds == (if tot == 0 then 0 else Spans(off, tot))
    && Logged(sb, v.inodes[i].addrs[IND], off % BSIZE == 0, l0, l, acc)
    && Tracked(sb, v0.blocks, l0, v.blocks, l)
    && Filling(sb, v0, owner0, v, owner, i, off / BSIZE, PastEnd(off, tot))
  }

  lemma PastBound(off: nat, n: nat)
    requires off + n <= MAXFILE * BSIZE
    ensures off / BSIZE <= PastEnd(off, n) <= MAXFILE
  {
  }

  lemma LoopStart(sb: SuperBlock, v: Vol, owner: Owners, l: set<nat>, i: nat, off: nat, src: seq<Byte>)
    requires FsInv(sb, v, owner, {}, {}) && Backed(sb, v) && i < sb.ninodes
    requires off <= v.inodes[i].size && off + |src| <= MAXFILE * BSIZE
    ensures InLoop(sb, v, owner, l, v, owner, l, i, off, 0, src, NoLog())
  {
    hide Progress, Logged, Tracked, Filling;
    PastNone(off);
    FillingStart(sb, v, owner, i, off / BSIZE);
    ProgressStart(sb, v, i, off, src);
    LoggedStart(sb, v.inodes[i].addrs[IND], off % BSIZE == 0, l);
    TrackedSelf(sb, v.blocks, l);
    hide FsInv, Backed;
  }

  // The inode that bmap may leave different from its copy on disk.
  lemma LoopStale(sb: SuperBlock, v0: Vol, owner0: Owners, l0: set<nat>, v: Vol, owner: Owners, l: set<nat>,
                           i: nat, off: nat, tot: nat, src: seq<Byte>, acc: Acc)
    returns (stale: set<nat>)
    requires InLoop(sb, v0, owner0, l0, v, owner, l, i, off, tot, src, acc)
    ensures FsInv(sb, v, owner, stale, {}) && Backed(sb, v) && Typed(sb, v) && i < sb.ninodes
    ensures stale + {i} == {i} && (stale == {} ==> v.inodes == v0.inodes)
    ensures stale != {} ==> off + tot > v0.inodes[i].size
    ensures tot < |src| ==> off + tot < MAXFILE * BSIZE
  {
    hide Slot, Progress, Logged, Tracked, Filling, Spans, PastEnd;
    ProgressTyped(sb, v0, v, i, off, tot, src);
    hide FsInv, Backed;
    stale := if FsInv(sb, v, owner, {}, {}) && v.inodes == v0.inodes then {} else {i};
  }

  lemma LoopSpace(sb: SuperBlock, v0: Vol, owner0: Owners, l0: set<nat>, v: Vol, owner1: Owners, l: set<nat>,
                  w: Vol, owner: Owners, l': set<nat>, i: nat, off: nat, tot: nat, m: nat, src: seq<Byte>, acc: Acc,
                  stale: set<nat>, ok: bool)
    requires InLoop(sb, v0, owner0, l0, v, owner1, l, i, off, tot, src, acc) && 0 < m <= |src| - tot
    requires (off + tot) % BSIZE + m <= BSIZE && Tracked(sb, v.blocks, l, w.blocks, l')
    requires FsInv(sb, w, owner, stale + {i}, {})
    requires off / BSIZE <= PastEnd(off, |src|) <= MAXFILE
    requires Typed(sb, v) && i < sb.ninodes
    requires off + tot < MAXFILE * BSIZE
    requires ok <==> Space(sb, owner1) >= Needed(v, i, (off + tot) / BSIZE, (off + tot) / BSIZE + 1)
    requires ok ==> BlockWritten(sb, v, owner1, l, w, owner, l', i, off + tot, src[tot..tot + m])
    ensures Tracked(sb, v0.blocks, l0, w.blocks, l') && Typed(sb, w)
    ensures Typed(sb, v0) && (!ok ==> Space(sb, owner0) < Needed(v0, i, off / BSIZE, PastEnd(off, |src|)))
    ensures ok ==> Filling(sb, v0, owner0, w, owner, i, off / BSIZE, PastEnd(off, tot + m))
  {
    hide FsInv, Backed, Progress, Logged, Wrote, WriteLog, Filled, Needed, Filling, Tracked;
    InvTyped(sb, w, owner, stale + {i});
    ProgressTyped(sb, v0, v, i, off, tot, src);
    TrackedTrans(sb, v0.blocks, l0, v.blocks, l, w.blocks, l');
    PastNext(off, tot, m, |src|);
    hide PastEnd;
    FillingNext(sb, v0, owner0, v, owner1, w, owner, i, off / BSIZE, (off + tot) / BSIZE, PastEnd(off, |src|), ok,
                stale + {i});
  }

  lemma InvTyped(sb: SuperBlock, v: Vol, owner: Owners, stale: set<nat>)
    requires FsInv(sb, v, owner, stale, {})
    ensures Typed(sb, v)
  {
  }

  lemma ProgressTyped(sb: SuperBlock, v: Vol, w: Vol, i: nat, off: nat, tot: nat, src: seq<Byte>)
    requires Progress(sb, v, w, i, off, tot, src)
    ensures Typed(sb, v) && Typed(sb, w) && i < sb.ninodes && tot <= |src| && off + |src| <= MAXFILE * BSIZE
    ensures w.inodes[i].size == v.inodes[i].size
  {
  }

  lemma LoopNext(sb: SuperBlock, v0: Vol, owner0: Owners, l0: set<nat>, v: Vol, owner1: Owners, l: set<nat>,
                 w: Vol, owner: Owners, l': set<nat>, i: nat, off: nat, tot: nat, m: nat, src: seq<Byte>, acc: Acc,
                 stale: set<nat>) returns (acc': Acc)
    requires InLoop(sb, v0, owner0, l0, v, owner1, l, i, off, tot, src, acc) && 0 < m <= |src| - tot
    requires m == if |src| - tot < BSIZE - (off + tot) % BSIZE then |src| - tot else BSIZE - (off + tot) % BSIZE
    requires BlockWritten(sb, v, owner1, l, w, owner, l', i, off + tot, src[tot..tot + m])
    requires stale == {} ==> v.inodes == v0.inodes
    requires stale != {} ==> off + tot > v0.inodes[i].size
    requires FsInv(sb, w, owner, stale + {i}, {}) && Backed(sb, w) && OnlyAddrs(v.inodes, w.inodes, i)
    requires stale + {i} == {i}
    requires Slot(v, i, SlotOf((off + tot) / BSIZE)) != 0 ==> FsInv(sb, w, owner, stale, {}) && w.inodes == v.inodes
    requires Tracked(sb, v0.blocks, l0, w.blocks, l')
    requires Filling(sb, v0, owner0, w, owner, i, off / BSIZE, PastEnd(off, tot + m))
    ensures InLoop(sb, v0, owner0, l0, w, owner, l', i, off, tot + m, src, acc')
  {
    hide Slot, FsInv, Backed, Progress, Logged, Wrote, WriteLog, Filled, Needed, Filling, Tracked, PastEnd;
    AllocatesBeyond(sb, v0, v, i, off, tot, src);
    ProgressTyped(sb, v0, v, i, off, tot, src);
    ProgressStep(sb, v0, v, w, i, off, tot, m, src);
    WroteSlots(sb, v, w, i, off + tot, src[tot..tot + m]);
    LoopInodes(sb, v0, v, w, owner, i, off, tot, m, src, stale);
    SpansNext(off, tot, m);
    RoundAligned(off + tot, m, |src| - tot);
    hide Spans, OnlyAddrs;
    acc' := LoopLogged(sb, v, w, owner, i, off, tot, m, src, l0, l, l', acc);
    hide InLoop, BlockWritten, SlotOf;
    LoopIs(sb, v0, owner0, l0, w, owner, l', i, off, tot + m, src, acc');
  }

  lemma LoopIs(sb: SuperBlock, v0: Vol, owner0: Owners, l0: set<nat>, v: Vol, owner: Owners, l: set<nat>,
               i: nat, off: nat, tot: nat, src: seq<Byte>, acc: Acc)
    requires 0 < tot <= |src| && (tot < |src| ==> (off + tot) % BSIZE == 0)
    requires Progress(sb, v0, v, i, off, tot, src) && Typed(sb, v) && Backed(sb, v) && i < sb.ninodes && Typed(sb, v0)
    requires (FsInv(sb, v, owner, {}, {}) && v.inodes == v0.inodes)
             || (FsInv(sb, v, owner, {i}, {}) && off + tot > v0.inodes[i].size)
    requires acc.rounds == Spans(off, tot) && Logged(sb, v.inodes[i].addrs[IND], off % BSIZE == 0, l0, l, acc)
    requires Tracked(sb, v0.blocks, l0, v.blocks, l)
    requires Filling(sb, v0, owner0, v, owner, i, off / BSIZE, PastEnd(off, tot))
    ensures InLoop(sb, v0, owner0, l0, v, owner, l, i, off, tot, src, acc)
  {
    hide FsInv, Backed, Progress, Logged, Filling, Tracked, PastEnd, Spans;
  }

  // Which inodes may differ from their copies on disk after a round.
  lemma LoopInodes(sb: SuperBlock, v0: Vol, v: Vol, w: Vol, owner: Owners, i: nat, off: nat, tot: nat, m: nat,
                   src: seq<Byte>, stale: set<nat>)
    requires Typed(sb, v) && i < sb.ninodes && Typed(sb, v0) && off + tot < MAXFILE * BSIZE && 0 < m
    requires stale == {} ==> v.inodes == v0.inodes
    requires stale != {} ==> off + tot > v0.inodes[i].size
    requires FsInv(sb, w, owner, stale + {i}, {}) && stale + {i} == {i}
    requires Slot(v, i, SlotOf((off + tot) / BSIZE)) != 0 ==> FsInv(sb, w, owner, stale, {}) && w.inodes == v.inodes
    requires Slot(v, i, SlotOf((off + tot) / BSIZE)) == 0 ==> off + tot >= v0.inodes[i].size
    ensures (FsInv(sb, w, owner, {}, {}) && w.inodes == v0.inodes)
            || (FsInv(sb, w, owner, {i}, {}) && off + tot + m > v0.inodes[i].size)
  {
    hide Slot, FsInv, SlotOf;
    if stale != {} { assert stale == {i}; }
  }

  lemma RoundAligned(o: nat, m: nat, left: nat)
    requires m == if left < BSIZE - o % BSIZE then left else BSIZE - o % BSIZE
    ensures m < left ==> (o + m) % BSIZE == 0
  {
  }

  lemma LoopLogged(sb: SuperBlock, v: Vol, w: Vol, owner: Owners, i: nat, off: nat, tot: nat, m: nat, src: seq<Byte>,
                   l0: set<nat>, l: set<nat>, l': set<nat>, acc: Acc) returns (acc': Acc)
    requires FsInv(sb, w, owner, {i}, {}) && Typed(sb, v) && i < sb.ninodes && off + tot < MAXFILE * BSIZE
    requires Logged(sb, v.inodes[i].addrs[IND], off % BSIZE == 0, l0, l, acc)
    requires v.inodes[i].addrs[IND] != 0 ==> w.inodes[i].addrs[IND] == v.inodes[i].addrs[IND]
    requires Slot(w, i, SlotOf((off + tot) / BSIZE)) != 0 && l' == l + WriteLog(sb, v, w, i, (off + tot) / BSIZE)
    requires Slot(v, i, SlotOf((off + tot) / BSIZE)) == 0 && acc.rounds == 0 ==> off % BSIZE == 0
    ensures Logged(sb, w.inodes[i].addrs[IND], off % BSIZE == 0, l0, l', acc') && acc'.rounds == acc.rounds + 1
  {
    hide Slot, Referenced, Owned, Logged, WriteLog;
    acc' := WriteLogged(sb, v, w, owner, i, (off + tot) / BSIZE, off % BSIZE == 0, l0, l, l', acc);
  }

  lemma LoopEnd(sb: SuperBlock, v0: Vol, owner0: Owners, l0: set<nat>, w: Vol, owner: Owners, l: set<nat>,
                i: nat, off: nat, src: seq<Byte>, acc: Acc)
    requires InLoop(sb, v0, owner0, l0, w, owner, l, i, off, |src|, src, acc) && PastEnd(off, |src|) <= MAXFILE
    ensures Typed(sb, v0) && i < sb.ninodes
    ensures Progress(sb, v0, w, i, off, |src|, src) && Backed(sb, w)
    ensures (FsInv(sb, w, owner, {}, {}) && w.inodes == v0.inodes)
            || (FsInv(sb, w, owner, {i}, {}) && off + |src| > v0.inodes[i].size)
    ensures |l - l0| <= LogBound(off, |src|, sb.NBitmap())
    ensures |l + {sb.IBlock(i)} - l0| <= LogBound(off, |src|, sb.NBitmap())
    ensures Tracked(sb, v0.blocks, l0, w.blocks, l)
    ensures Filling(sb, v0, owner0, w, owner, i, off / BSIZE, PastEnd(off, |src|))
    ensures Space(sb, owner0) >= Needed(v0, i, off / BSIZE, PastEnd(off, |src|))
  {
    hide FsInv, Backed, Progress, Logged, Needed, Filling, Tracked, PastEnd, LogBound, Spans;
    ProgressTyped(sb, v0, w, i, off, |src|, src);
    LoggedEnd(sb, w.inodes[i].addrs[IND], i, off, |src|, l0, l, acc);
    FillingEnd(sb, v0, owner0, w, owner, i, off / BSIZE, PastEnd(off, |src|));
  }

  class Fs {
    const sb: SuperBlock
    var blocks: seq<Block>         // what bread returns
    var inodes: seq<Inode>         // in-core inodes
    var logged: set<nat>           // distinct blocks logged by the running transaction
    ghost var owner: Owners

    ghost function Now(): Vol
      reads this
    {
      Vol(blocks, inodes)
    }

    // Ownership, also with blocks missing below a size.
    ghost predicate Owns(stale: set<nat>)
      reads this
    {
      FsInv(sb, Now(), owner, stale, {})
    }

    ghost predicate Inv(stale: set<nat>)
      reads this
    {
      Owns(stale) && Backed(sb, Now())
    }

    // All file-system calls keep this.
    ghost predicate Valid()
      reads this
    {
      Inv({})
    }

    constructor (sb: SuperBlock, blocks: seq<Block>, inodes: seq<Inode>, ghost owner: Owners)
      requires FsInv(sb, Vol(blocks, inodes), owner, {}, {}) && Backed(sb, Vol(blocks, inodes))
      ensures Valid() && this.sb == sb && this.blocks == blocks && this.inodes == inodes && logged == {}
    {
      this.sb, this.blocks, this.inodes, this.owner, logged := sb, blocks, inodes, owner, {};
    }

    // Modify a block returned by bread and log_write it.
    method Put(b: nat, data: Block)
      requires b < |blocks|
      modifies this`blocks, this`logged
      ensures blocks == old(blocks)[b := data] && logged == old(logged) + {b}
    {
      blocks := blocks[b := data];
      logged := logged + {b};
    }

    // The inner loop of balloc: the first clear bit of bitmap block BBlock(b).
    method FindBit(b: nat) returns (ok: bool, bi: nat)
      requires sb.Valid() && |blocks| == sb.size && b < sb.size && b % BPB == 0
      ensures ok ==> bi < BPB && b + bi < sb.size && !Bit(sb, blocks, b + bi)
      ensures forall c: nat | b <= c < sb.size && c < b + (if ok then bi else BPB) :: Bit(sb, blocks, c)
    {
      hide HasBit;
      var data := blocks[sb.BBlock(b)];
      bi := 0;
      while bi < BPB && b + bi < sb.size
        invariant 0 <= bi <= BPB
        invariant forall c: nat | b <= c < sb.size && c < b + bi :: Bit(sb, blocks, c)
      {
        assert sb.BBlock(b + bi) == sb.BBlock(b) && (b + bi) % BPB == bi;
        if !HasBit(data[bi / 8], bi % 8) {
          return true, bi;
        }
        assert Bit(sb, blocks, b + bi);
        bi := bi + 1;
      }
      ok := false;
    }

    // balloc: the lowest free block, marked and zeroed. ok is false exactly
    // when no block is free ("balloc: out of blocks").
    method BAlloc() returns (ok: bool, r: Word32)
      requires sb.Valid() && |blocks| == sb.size
      modifies this`blocks, this`logged
      ensures ok <==> exists b: nat :: b < sb.size && !Bit(sb, old(blocks), b)
      ensures !ok ==> blocks == old(blocks) && logged == old(logged)
      ensures ok ==> r < sb.size && !Bit(sb, old(blocks), r) && forall c: nat | c < r :: Bit(sb, old(blocks), c)
      ensures ok ==> blocks == FlipBlock(sb, old(blocks), r)[r := ZeroBlock()]
      ensures ok ==> logged == old(logged) + {sb.BBlock(r), r}
    {
      hide HasBit, FlipBit, FlipInByte, BitOf;
      var b := 0;
      while b < sb.size
        invariant b % BPB == 0
        invariant blocks == old(blocks) && logged == old(logged)
        invariant forall c: nat | c < sb.size && c < b :: Bit(sb, blocks, c)
      {
        var found, bi := FindBit(b);
        if found {
          assert sb.BBlock(b + bi) == sb.BBlock(b) && (b + bi) % BPB == bi;
          var data := blocks[sb.BBlock(b)];
          Put(sb.BBlock(b), data[bi / 8 := FlipInByte(data[bi / 8], bi % 8)]);
          Put(b + bi, ZeroBlock());
          return true, b + bi;
        }
        b := b + BPB;
      }
      return false, 0;
    }

    // bfree. The kernel panics ("freeing free block") if the bit is clear.
    method BFree(b: nat)
      requires sb.Valid() && |blocks| == sb.size && b < sb.size && Bit(sb, blocks, b)
      modifies this`blocks, this`logged
      ensures blocks == FlipBlock(sb, old(blocks), b) && logged == old(logged) + {sb.BBlock(b)}
    {
      hide HasBit, FlipBit;
      var data := blocks[sb.BBlock(b)];
      var bi := b % BPB;
      Put(sb.BBlock(b), data[bi / 8 := FlipInByte(data[bi / 8], bi % 8)]);
    }

    // iupdate.
    method IUpdate(i: nat)
      requires Typed(sb, Now()) && i < sb.ninodes
      modifies this`blocks, this`logged
      ensures Now() == Updated(sb, old(Now()), i) && logged == old(logged) + {sb.IBlock(i)}
    {
      Put(sb.IBlock(i), EncodeInode(blocks[sb.IBlock(i)], i % IPB, inodes[i]));
    }

    // balloc for the empty direct (or indirect-pointer) slot s of inode i.
    method AllocDirect(i: nat, s: nat, ghost stale: set<nat>) returns (ok: bool, b: Word32)
      requires Owns(stale) && i < sb.ninodes && s <= IND && inodes[i].addrs[s] == 0
      modifies this`blocks, this`inodes, this`logged, this`owner
      ensures !ok ==> blocks == old(blocks) && inodes == old(inodes) && owner == old(owner) && logged == old(logged)
      ensures !ok ==> forall c: nat | c < sb.size :: Bit(sb, blocks, c)
      ensures ok <==> Space(sb, old(owner)) > 0
      ensures |owner| == |old(owner)| + if ok then 1 else 0
      ensures ok ==> b < sb.size && b != 0 && Now() == LinkDirect(sb, old(Now()), i, s, b)
      ensures ok ==> inodes == old(inodes)[i := old(inodes)[i].(addrs := old(inodes)[i].addrs[s := b])]
      ensures ok ==> Owns(stale + {i}) && (Backed(sb, old(Now())) ==> Backed(sb, Now()))
      ensures ok ==> Extends(sb, old(Now()), Now()) && SlotSet(old(Now()), Now(), i, s, b)
      ensures ok ==> logged == old(logged) + {b, sb.BBlock(b)}
      ensures Tracked(sb, old(blocks), old(logged), blocks, logged)
    {
      hide Slot, Bit, FlipBlock, ZeroBlock, Extends, SlotSet, Synced, BitmapIs, Referenced, Owned, Backed, Tracked;
      TrackedSelf(sb, blocks, logged);
      SpaceIsFree(sb, Now(), owner, stale);
      ok, b := BAlloc();
      if ok {
        ghost var v := old(Now());
        assert 0 < sb.IBlock(i) < sb.datastart;
        LinkDirectKeeps(sb, v, owner, stale, i, s, b);
        LinkDirectExtends(sb, v, owner, i, s, b);
        TrackedLink(sb, v.blocks, old(logged), b, i);
        inodes := inodes[i := inodes[i].(addrs := inodes[i].addrs[s := b])];
        owner := owner[b as nat := (i, s)];
      }
    }

    // balloc for the empty entry s of the indirect block of inode i.
    method AllocEntry(i: nat, s: nat, ghost stale: set<nat>) returns (ok: bool, b: Word32)
      requires Owns(stale) && i < sb.ninodes && IND < s < NSLOTS
      requires inodes[i].addrs[IND] != 0 && Slot(Now(), i, s) == 0
      modifies this`blocks, this`inodes, this`logged, this`owner
      ensures !ok ==> blocks == old(blocks) && inodes == old(inodes) && owner == old(owner) && logged == old(logged)
      ensures !ok ==> forall c: nat | c < sb.size :: Bit(sb, blocks, c)
      ensures ok <==> Space(sb, old(owner)) > 0
      ensures |owner| == |old(owner)| + if ok then 1 else 0
      ensures old(inodes)[i].addrs[IND] < sb.size && inodes == old(inodes)
      ensures ok ==> b < sb.size && b != 0 && Now() == LinkEntry(sb, old(Now()), i, s, b)
      ensures ok ==> Owns(stale) && (Backed(sb, old(Now())) ==> Backed(sb, Now()))
      ensures ok ==> Extends(sb, old(Now()), Now()) && SlotSet(old(Now()), Now(), i, s, b)
      ensures ok ==> logged == old(logged) + {b, sb.BBlock(b), inodes[i].addrs[IND]}
      ensures Tracked(sb, old(blocks), old(logged), blocks, logged)
    {
      hide Slot, Bit, FlipBlock, ZeroBlock, Extends, SlotSet, Synced, BitmapIs, SetWord, Backed, Tracked;
      TrackedSelf(sb, blocks, logged);
      ghost var v := Now();
      IndirectOwned(sb, v, owner, {}, i);
      hide Referenced, Owned;
      SpaceIsFree(sb, v, owner, stale);
      ok, b := BAlloc();
      if ok {
        assert 0 < sb.IBlock(i) < sb.datastart;
        LinkEntryKeeps(sb, v, owner, stale, i, s, b);
        LinkEntryExtends(sb, v, owner, i, s, b);
        var addr := inodes[i].addrs[IND];
        ghost var b1, l1 := blocks, logged;
        TrackedLink(sb, v.blocks, old(logged), b, i);
        assert sb.inodestart <= sb.IBlock(i) < addr;
        TrackedPut(sb, b1, l1, addr, SetWord(blocks[addr], s - IND - 1, b));
        Put(addr, SetWord(blocks[addr], s - IND - 1, b));
        TrackedTrans(sb, v.blocks, old(logged), b1, l1, blocks, logged);
        owner := owner[b as nat := (i, s)];
      }
    }

    // bmap: the block of file block bn, allocated if there is none. ok is false
    // where balloc panics.
    method BMap(i: nat, bn: nat, ghost stale: set<nat>) returns (ok: bool, addr: Word32)
      requires Owns(stale) && i < sb.ninodes
      requires bn < MAXFILE      // else panic("bmap: out of range")
      modifies this`blocks, this`inodes, this`logged, this`owner
      ensures Owns(stale + {i}) && (Backed(sb, old(Now())) ==> Backed(sb, Now())) && Extends(sb, old(Now()), Now())
      ensures ok ==> addr != 0 && addr == Slot(Now(), i, SlotOf(bn))
      ensures ok <==> Space(sb, old(owner)) >= Needed(old(Now()), i, bn, bn + 1)
      ensures ok ==> |owner| == |old(owner)| + Needed(old(Now()), i, bn, bn + 1)
      ensures ok ==> Filled(old(Now()), Now(), i, bn, bn + 1)
      ensures !ok ==> forall c: nat | c < sb.size :: Bit(sb, blocks, c)
      ensures Slot(old(Now()), i, SlotOf(bn)) != 0 ==>
        ok && Now() == old(Now()) && owner == old(owner) && logged == old(logged)
      ensures Slot(old(Now()), i, SlotOf(bn)) == 0 && ok ==>
        logged == old(logged) + MapLog(sb, old(Now()), Now(), i, bn)
      ensures OnlyAddrs(old(inodes), inodes, i)
      ensures Tracked(sb, old(blocks), old(logged), blocks, logged)
    {
      hide Bit, FlipBlock, ZeroBlock, Extends, SlotSet, Synced, BitmapIs, Referenced, Owned, Backed, Word, Tracked;
      TrackedSelf(sb, blocks, logged);
      hide LinkDirect, LinkEntry, Filled, Needed;
      ghost var v := Now();
      ExtendsSelf(sb, v);
      NeededOne(v, i, bn);
      SpaceThere(sb, v, owner, stale);
      if bn < NDIRECT {
        SlotDirect(v, i, bn);
        addr := inodes[i].addrs[bn];
        ok := true;
        if addr == 0 {
          ok, addr := AllocDirect(i, bn, stale);
        }
        if ok {
          SlotDirect(Now(), i, bn);
          FilledDirect(v, Now(), i, bn, addr);
        }
        StaleMore(sb, Now(), owner, if Now() == v then stale else stale + {i}, i);
        assert stale + {i} + {i} == stale + {i};
        return;
      }
      var n := bn - NDIRECT;
      var s := IND + 1 + n;
      addr := inodes[i].addrs[NDIRECT];
      ghost var stale' := stale;
      if addr == 0 {
        assert Slot(v, i, SlotOf(bn)) == 0 by { NoEntries(v, i, SlotOf(bn)); }
        SlotDirect(v, i, IND);
        ok, addr := AllocDirect(i, IND, stale);
        if !ok {
          StaleMore(sb, v, owner, stale, i);
          return;
        }
        stale' := stale + {i};
        assert Slot(Now(), i, s) == Slot(v, i, s) by { SlotSetAt(v, Now(), i, IND, addr, s); }
        assert Slot(v, i, s) == 0 by { NoEntries(v, i, s); }
        SlotDirect(Now(), i, IND);
      }
      ghost var u, l1 := Now(), logged;
      ghost var ind := addr;
      SlotDirect(v, i, IND);
      IndirectOwned(sb, u, owner, {}, i);
      var a := blocks[addr];
      addr := Word(a, n);
      assert addr == Slot(u, i, s) by { SlotEntry(u, i, s); }
      ok := true;
      if addr == 0 {
        ok, addr := AllocEntry(i, s, stale');
        TrackedTrans(sb, v.blocks, old(logged), u.blocks, l1, blocks, logged);
        if ok {
          SlotSetAt(u, Now(), i, s, addr, s);
          ExtendsTrans(sb, v, u, Now());
        }
      }
      if ok { FilledFar(v, u, Now(), i, bn, ind, addr); }
      StaleMore(sb, Now(), owner, stale', i);
      assert stale' + {i} == stale + {i};
    }

    // readi on a file of type other than T_DEV: -1, or the bytes off..off+r.
    method ReadI(i: nat, off: Word32, n: Word32) returns (r: int, dst: seq<Byte>)
      requires Valid() && i < sb.ninodes && inodes[i].Type() != T_DEV
      modifies this`blocks, this`inodes, this`logged, this`owner
      ensures Now() == old(Now()) && owner == old(owner) && logged == old(logged)
      ensures r == -1 <==> off > inodes[i].size || off + n >= TWO32
      ensures r == -1 ==> dst == []
      ensures r != -1 ==>
        && r == (if off + n > inodes[i].size then inodes[i].size - off else n)
        && dst == Content(Now(), i)[off..off + r]
    {
      hide Slot, FsInv, Backed, Extends, Content, Filled, Needed, Bit, Tracked, OnlyAddrs, MapLog, Space;
      InvTyped(sb, Now(), owner, {});
      BackedSize(sb, Now(), i);
      if off > inodes[i].size || (off + n) % TWO32 < off {
        return -1, [];
      }
      var cnt := n;
      if off + n > inodes[i].size {
        cnt := inodes[i].size - off;
      }
      var tot, o := 0, off;
      dst := [];
      ghost var c := Content(Now(), i);
      assert off + cnt <= |c| == inodes[i].size;
      while tot < cnt
        invariant 0 <= tot <= cnt && o == off + tot
        invariant Now() == old(Now()) && owner == old(owner) && logged == old(logged)
        invariant dst == c[off..o]
      {
        var m := if cnt - tot < BSIZE - o % BSIZE then cnt - tot else BSIZE - o % BSIZE;
        ReadRound(sb, Now(), owner, i, off, o, m);
        var ok, addr := BMap(i, o / BSIZE, {});
        dst := dst + blocks[addr][o % BSIZE..o % BSIZE + m];
        tot, o := tot + m, o + m;
      }
      r := cnt;
    }

    // Body of the writei loop: part goes to bytes o..o+|part| of the file, all
    // in one block.
    method WriteBlock(i: nat, o: nat, part: seq<Byte>, ghost stale: set<nat>) returns (ok: bool)
      requires Inv(stale) && i < sb.ninodes
      requires o < MAXFILE * BSIZE && o % BSIZE + |part| <= BSIZE
      modifies this`blocks, this`inodes, this`logged, this`owner
      ensures Inv(stale + {i}) && OnlyAddrs(old(inodes), inodes, i)
      ensures Slot(old(Now()), i, SlotOf(o / BSIZE)) != 0 ==> ok && Inv(stale) && inodes == old(inodes)
      ensures ok <==> Space(sb, old(owner)) >= Needed(old(Now()), i, o / BSIZE, o / BSIZE + 1)
      ensures !ok ==> forall c: nat | c < sb.size :: Bit(sb, blocks, c)
      ensures ok ==> BlockWritten(sb, old(Now()), old(owner), old(logged), Now(), owner, logged, i, o, part)
      ensures Tracked(sb, old(blocks), old(logged), blocks, logged)
    {
      hide Slot, Referenced, Owned, Synced, BitmapIs, Backed, Extends, ByteAt, Bit, Tracked, Filled, Needed;
      var bn := o / BSIZE;
      assert bn < MAXFILE;
      var addr;
      ok, addr := BMap(i, bn, stale);
      if !ok { return; }
      ghost var u, st := Now(), if Slot(old(Now()), i, SlotOf(bn)) != 0 then stale else stale + {i};
      SlotInRange(sb, u, owner, i, SlotOf(bn));
      ghost var data := Patch(blocks[addr], o % BSIZE, part);
      StoreKeeps(sb, u, owner, st, i, SlotOf(bn), data);
      WroteBytes(sb, old(Now()), u, owner, i, o, part);
      ghost var l1 := logged;
      assert sb.inodestart <= sb.IBlock(i) < addr;
      TrackedPut(sb, u.blocks, l1, addr, data);
      Put(addr, Patch(blocks[addr], o % BSIZE, part));
      TrackedTrans(sb, old(blocks), old(logged), u.blocks, l1, blocks, logged);
      StaleMore(sb, Now(), owner, st, i);
      assert st + {i} == stale + {i};
      assert Slot(Now(), i, SlotOf(bn)) == addr;
      assert logged == old(logged) + WriteLog(sb, old(Now()), Now(), i, bn);
      FilledStored(old(Now()), u, Now(), i, bn);
    }

    // The loop of writei. ok is false where balloc panics.
    method WriteLoop(i: nat, src: seq<Byte>, off: nat) returns (ok: bool)
      requires Valid() && i < sb.ninodes && off <= inodes[i].size && off + |src| <= MAXFILE * BSIZE
      modifies this`blocks, this`inodes, this`logged, this`owner
      ensures ok ==> Progress(sb, old(Now()), Now(), i, off, |src|, src)
      ensures ok ==> (Inv({}) && inodes == old(inodes)) || (Inv({i}) && off + |src| > old(inodes[i].size))
      ensures ok ==> |logged - old(logged)| <= LogBound(off, |src|, sb.NBitmap())
      ensures ok ==> |logged + {sb.IBlock(i)} - old(logged)| <= LogBound(off, |src|, sb.NBitmap())
      ensures !ok ==> sb.Valid() && |blocks| == sb.size && forall c: nat | c < sb.size :: Bit(sb, blocks, c)
      ensures off / BSIZE <= PastEnd(off, |src|) <= MAXFILE
      ensures ok <==> Space(sb, old(owner)) >= Needed(old(Now()), i, off / BSIZE, PastEnd(off, |src|))
      ensures ok ==> Filling(sb, old(Now()), old(owner), Now(), owner, i, off / BSIZE, PastEnd(off, |src|))
      ensures Tracked(sb, old(blocks), old(logged), blocks, logged)
    {
      hide Slot, FsInv, Backed, Wrote, Bit, Progress, Logged, Spans, LogBound, Tracked, Filling, Needed, PastEnd;
      hide InLoop, BlockWritten;
      ghost var v0, acc := Now(), NoLog();
      PastBound(off, |src|);
      LoopStart(sb, v0, owner, logged, i, off, src);
      var tot, o := 0, off;
      while tot < |src|
        invariant 0 <= tot <= |src| && o == off + tot
        invariant InLoop(sb, v0, old(owner), old(logged), Now(), owner, logged, i, off, tot, src, acc)
      {
        var m := if |src| - tot < BSIZE - o % BSIZE then |src| - tot else BSIZE - o % BSIZE;
        ghost var v, owner1, l := Now(), owner, logged;
        ghost var stale := LoopStale(sb, v0, old(owner), old(logged), v, owner, l, i, off, tot, src, acc);
        ok := WriteBlock(i, o, src[tot..tot + m], stale);
        LoopSpace(sb, v0, old(owner), old(logged), v, owner1, l, Now(), owner, logged, i, off, tot, m, src, acc, stale,
                  ok);
        if !ok { return; }
        acc := LoopNext(sb, v0, old(owner), old(logged), v, owner1, l, Now(), owner, logged, i, off, tot, m, src, acc,
                        stale);
        tot, o := tot + m, o + m;
      }
      ok := true;
      LoopEnd(sb, v0, old(owner), old(logged), Now(), owner, logged, i, off, src, acc);
    }

    // writei on a file of type other than T_DEV.
    method WriteI(i: nat, src: seq<Byte>, off: Word32) returns (res: WriteResult)
      requires Valid() && i < sb.ninodes && inodes[i].Type() != T_DEV && |src| < TWO32
      modifies this`blocks, this`inodes, this`logged, this`owner
      ensures res.Rejected? <==>
        off > old(inodes[i].size) || off + |src| >= TWO32 || off + |src| > MAXFILE * BSIZE
      ensures res.Rejected? ==> Now() == old(Now()) && owner == old(owner) && logged == old(logged)
      ensures res.Written? ==> Valid() && res.n == |src|
      ensures res.Written? ==> WroteFile(sb, old(Now()), Now(), i, off, src)
      ensures res.Written? ==> |logged - old(logged)| <= LogBound(off, |src|, sb.NBitmap())
      ensures res.OutOfBlocks? ==> sb.Valid() && |blocks| == sb.size && forall c: nat | c < sb.size :: Bit(sb, blocks, c)
      ensures PastEnd(off, |src|) <= MAXFILE || res.Rejected?
      ensures !res.Rejected? ==>
        (res.OutOfBlocks? <==> Space(sb, old(owner)) < Needed(old(Now()), i, off / BSIZE, PastEnd(off, |src|)))
      ensures res.Written? ==> Filling(sb, old(Now()), old(owner), Now(), owner, i, off / BSIZE, PastEnd(off, |src|))
      ensures Tracked(sb, old(blocks), old(logged), blocks, logged)
    {
      hide Slot, FsInv, Backed, Bit, Progress, WroteFile, LogBound, Extends, Tracked;
      hide Filling, Needed, PastEnd, Updated;
      TrackedSelf(sb, blocks, logged);
      InvTyped(sb, Now(), owner, {});
      if off > inodes[i].size || (off + |src|) % TWO32 < off {
        return Rejected;
      }
      if off + |src| > MAXFILE * BSIZE {
        return Rejected;
      }
      ghost var v0 := Now();
      var ok := WriteLoop(i, src, off);
      if !ok { return OutOfBlocks; }
      ghost var u, owner1, l1 := Now(), owner, logged;
      ProgressTyped(sb, v0, u, i, off, |src|, src);
      if |src| > 0 && off + |src| > inodes[i].size {
        GrowInode(sb, v0, old(owner), old(logged), u, owner1, l1, i, off, src);
        inodes := inodes[i := inodes[i].(size := off + |src|)];
        assert Now() == Grown(u, i, off + |src|);
        InvTyped(sb, Updated(sb, Now(), i), owner, {});
        IUpdate(i);
      } else {
        FinishSame(sb, v0, u, i, off, src);
      }
      return Written(|src|);
    }

    // bfree of the block in slot s <= 12, if any, and clearing of the slot.
    method TruncDirect(i: nat, s: nat)
      requires i < sb.ninodes && s <= IND
      requires Typed(sb, Now()) && FsInv(sb, Now(), owner, {i}, if s == IND && inodes[i].addrs[s] != 0 then Entries(i, NINDIRECT) else {})
      modifies this`blocks, this`inodes, this`logged, this`owner
      ensures FsInv(sb, Now(), owner, {i}, {})
      ensures inodes == old(inodes)[i := old(inodes)[i].(addrs := old(inodes)[i].addrs[s := 0])]
      ensures forall b | sb.datastart <= b < sb.size :: blocks[b] == old(blocks)[b]
      ensures OnlyDrops(old(owner), owner, i) && BitmapLogged(sb, old(blocks), old(logged), blocks, logged)
    {
      hide Slot, Referenced, Owned, Synced, BitmapIs, FlipOf, BitOf;
      if inodes[i].addrs[s] != 0 {
        DropDirectKeeps(sb, Now(), owner, {i}, if s == IND then Entries(i, NINDIRECT) else {}, i, s);
        FreeLogged(sb, blocks, logged, inodes[i].addrs[s], i);
        assert {i} + {i} == {i};
        BFree(inodes[i].addrs[s]);
        owner := owner - {inodes[i].addrs[s] as nat};
        inodes := inodes[i := inodes[i].(addrs := inodes[i].addrs[s := 0])];
      } else {
        assert inodes[i].addrs[s := 0] == inodes[i].addrs;
        assert inodes[i := inodes[i].(addrs := inodes[i].addrs[s := 0])] == inodes;
      }
    }

    // The loop of itrunc over the entries of the indirect block.
    method TruncEntries(i: nat)
      requires i < sb.ninodes && FsInv(sb, Now(), owner, {i}, {}) && inodes[i].addrs[IND] != 0
      modifies this`blocks, this`logged, this`owner
      ensures FsInv(sb, Now(), owner, {i}, Entries(i, NINDIRECT))
      ensures forall b | sb.datastart <= b < sb.size :: blocks[b] == old(blocks)[b]
      ensures OnlyDrops(old(owner), owner, i) && BitmapLogged(sb, old(blocks), old(logged), blocks, logged)
    {
      hide Slot, Referenced, Owned, Synced, BitmapIs, FlipOf, BitOf, Word;
      ghost var owner0 := owner;
      IndirectOwned(sb, Now(), owner, {}, i);
      assert Entries(i, 0) == {};
      var a := blocks[inodes[i].addrs[IND]];
      var j := 0;
      while j < NINDIRECT
        invariant 0 <= j <= NINDIRECT
        invariant FsInv(sb, Now(), owner, {i}, Entries(i, j))
        invariant forall b | sb.datastart <= b < sb.size :: blocks[b] == old(blocks)[b]
        invariant OnlyDrops(owner0, owner, i) && BitmapLogged(sb, old(blocks), old(logged), blocks, logged)
      {
        SlotEntry(Now(), i, IND + 1 + j);
        DropEntryKeeps(sb, Now(), owner, {i}, i, j);
        if Word(a, j) != 0 {
          FreeLogged(sb, blocks, logged, Word(a, j), i);
          BFree(Word(a, j));
          owner := owner - {Word(a, j) as nat};
        }
        j := j + 1;
      }
    }

    // The second half of itrunc: the indirect block and its entries.
    method TruncIndirect(i: nat)
      requires i < sb.ninodes && FsInv(sb, Now(), owner, {i}, {})
      modifies this`blocks, this`inodes, this`logged, this`owner
      ensures FsInv(sb, Now(), owner, {i}, {})
      ensures inodes == old(inodes)[i := old(inodes)[i].(addrs := old(inodes)[i].addrs[IND := 0])]
      ensures forall b | sb.datastart <= b < sb.size :: blocks[b] == old(blocks)[b]
      ensures OnlyDrops(old(owner), owner, i) && BitmapLogged(sb, old(blocks), old(logged), blocks, logged)
    {
      hide Slot, Referenced, Owned, Synced, BitmapIs;
      if inodes[i].addrs[NDIRECT] != 0 {
        TruncEntries(i);
      }
      TruncDirect(i, NDIRECT);
    }

    // itrunc: frees exactly the blocks of inode i. Each bfree finds its bit
    // set, so "freeing free block" is unreachable.
    method ITrunc(i: nat)
      requires Valid() && i < sb.ninodes
      modifies this`blocks, this`inodes, this`logged, this`owner
      ensures Valid()
      ensures inodes == old(inodes)[i := old(inodes)[i].(size := 0, addrs := seq(NDIRECT + 1, _ => 0))]
      ensures owner == Others(old(owner), i)
      ensures forall b: nat | b < sb.size ::
        Bit(sb, blocks, b) <==> Bit(sb, old(blocks), b) && !(b in old(owner) && old(owner)[b].0 == i)
      ensures forall j: nat | j < sb.ninodes && j != i :: Content(Now(), j) == Content(old(Now()), j)
      ensures Tracked(sb, old(blocks), old(logged), blocks, logged)
      ensures sb.IBlock(i) in logged && |logged - old(logged)| <= sb.NBitmap() + 1
    {
      hide Slot, FsInv, Backed, Bit, Content, Truncating, Tracked, Others, Updated;
      ghost var owner0, v0 := owner, Now();
      InvTyped(sb, v0, owner, {});
      TruncStart(sb, v0, owner, logged, i);
      var s := 0;
      while s < NDIRECT
        invariant 0 <= s <= NDIRECT
        invariant Truncating(sb, v0, owner0, old(logged), Now(), owner, logged, i, s)
      {
        ghost var u, owner1, l := Now(), owner, logged;
        TruncatingInv(sb, v0, owner0, old(logged), u, owner1, l, i, s);
        TruncDirect(i, s);
        TruncStep(sb, v0, owner0, old(logged), u, owner1, l, Now(), owner, logged, i, s);
        s := s + 1;
      }
      ghost var u, owner1, l := Now(), owner, logged;
      TruncatingInv(sb, v0, owner0, old(logged), u, owner1, l, i, s);
      TruncIndirect(i);
      TruncStep(sb, v0, owner0, old(logged), u, owner1, l, Now(), owner, logged, i, IND);
      TruncEnd(sb, v0, owner0, old(logged), Now(), owner, logged, i);
      inodes := inodes[i := inodes[i].(size := 0)];
      IUpdate(i);
    }

    // The body of the loop of filewrite: one transaction. Chunks of k bytes were
    // written before, starting from v0.
    method WriteChunk(i: nat, addr: seq<Byte>, k: nat, n1: nat, off: Word32, ghost v0: Vol, ghost owner0: Owners)
      returns (res: WriteResult)
      requires Valid() && i < sb.ninodes && inodes[i].Type() != T_DEV && Typed(sb, v0)
      requires 0 < n1 <= CHUNK && k + n1 <= |addr| && k <= off
      requires Chunked(sb, v0, owner0, Now(), owner, i, off - k, k, addr)
      modifies this`blocks, this`inodes, this`logged, this`owner
      ensures res.Rejected? <==> off > old(inodes[i].size) || off + n1 >= TWO32 || off + n1 > MAXFILE * BSIZE
      ensures res.Rejected? ==> Now() == old(Now()) && owner == old(owner)
      ensures res.Written? ==> Tracked(sb, old(blocks), {}, blocks, logged)
      ensures res.Written? ==> res.n == n1 && Valid() && Typed(sb, Now()) && inodes[i].Type() != T_DEV
      ensures res.Written? ==> Chunked(sb, v0, owner0, Now(), owner, i, off - k, k + n1, addr)
      ensures res.Written? ==> FitsOp(sb, logged)
      ensures res.OutOfBlocks? ==> sb.Valid() && |blocks| == sb.size && forall c: nat | c < sb.size :: Bit(sb, blocks, c)
      ensures res.OutOfBlocks? ==> off - k <= v0.inodes[i].size && PastEnd(off - k, k + n1) <= MAXFILE
      ensures res.OutOfBlocks? ==> Space(sb, owner0) < Needed(v0, i, (off - k) / BSIZE, PastEnd(off - k, k + n1))
    {
      hide Slot, FsInv, Backed, WroteFile, LogBound, Bit, Filling, Needed, PastEnd, Tracked, Chunked, Space;
      logged := {};                   // begin_op
      ghost var v, owner1 := Now(), owner;
      InvTyped(sb, v, owner, {});
      res := WriteI(i, addr[k..k + n1], off);
      if res.Written? {
        ChunkBound(off, n1, sb.NBitmap());
        InvTyped(sb, Now(), owner, {});
        SameType(sb, v, Now(), i, off, addr[k..k + n1]);
        ChunkNext(sb, v0, owner0, v, owner1, Now(), owner, i, off - k, k, n1, addr);
      } else if res.OutOfBlocks? {
        ChunkFull(sb, v0, owner0, v, owner1, i, off - k, k, n1, addr);
      }
    }

    // filewrite on an inode (the pipe case is not modelled): one transaction a
    // chunk. off is f->off; ret is n, or -1 after a chunk that writei rejects.
    // full is true where balloc panics: in the first chunk that there is no space
    // for. ts is what each transaction logged.
    method FileWrite(i: nat, addr: seq<Byte>, off: Word32)
      returns (ret: int, off': Word32, full: bool, ghost ts: seq<set<nat>>)
      requires Valid() && i < sb.ninodes && inodes[i].Type() != T_DEV && |addr| < TWO32 / 2
      modifies this`blocks, this`inodes, this`logged, this`owner
      ensures forall k | 0 <= k < |ts| :: FitsOp(sb, ts[k])
      ensures !full ==> Covered(old(blocks), blocks, ts)
      ensures CHUNK * |ts| - CHUNK < off' - off <= CHUNK * |ts|
      ensures off <= off' <= off + |addr| && (off' == off + |addr| || off' - off == CHUNK * |ts|)
      ensures !full ==> Valid() && (ret == if off' == off + |addr| then |addr| else -1)
      ensures !full && off' != off ==>
        off <= old(inodes[i].size) && WroteFile(sb, old(Now()), Now(), i, off, addr[..off' - off])
      ensures !full && off' == off ==> Now() == old(Now())
      ensures !full && ret == -1 ==>
        var n1 := ChunkSize(off + |addr| - off');
        off' > inodes[i].size || off' + n1 >= TWO32 || off' + n1 > MAXFILE * BSIZE
      ensures full ==> sb.Valid() && |blocks| == sb.size && forall c: nat | c < sb.size :: Bit(sb, blocks, c)
      ensures full ==> off <= old(inodes[i].size) && off' < off + |addr|
      ensures full ==>
        var hi := PastEnd(off, off' - off + ChunkSize(off + |addr| - off'));
        hi <= MAXFILE && Space(sb, old(owner)) < Needed(old(Now()), i, off / BSIZE, hi)
      ensures !full && off' != off ==>
        PastEnd(off, off' - off) <= MAXFILE
        && Space(sb, old(owner)) >= Needed(old(Now()), i, off / BSIZE, PastEnd(off, off' - off))
    {
      hide Slot, FsInv, Backed, WroteFile, Bit, Filling, Needed, PastEnd, Chunked, Covered, Tracked, FitsOp;
      var n := |addr|;
      var k := 0;
      off', full, ts := off, false, [];
      CoveredNone(blocks);
      ghost var v0, owner0 := Now(), owner;
      InvTyped(sb, v0, owner0, {});
      NoChunk(sb, v0, owner0, i, off, addr);
      while k < n
        invariant 0 <= k <= n && off' == off + k && (k == n || k == CHUNK * |ts|)
        invariant CHUNK * |ts| - CHUNK < k <= CHUNK * |ts|
        invariant Covered(old(blocks), blocks, ts) && forall j | 0 <= j < |ts| :: FitsOp(sb, ts[j])
        invariant Valid() && Typed(sb, Now()) && inodes[i].Type() != T_DEV
        invariant Chunked(sb, v0, owner0, Now(), owner, i, off, k, addr)
      {
        var n1 := if n - k > CHUNK then CHUNK else n - k;
        ghost var v, owner1 := Now(), owner;
        var res := WriteChunk(i, addr, k, n1, off', v0, owner0);
        if res.Rejected? {
          ChunkEnd(sb, v0, owner0, v, owner1, i, off, k, addr);
          ret := -1;
          return;
        }
        if res.OutOfBlocks? {
          full, ret := true, -1;
          return;
        }
        CoveredMore(sb, old(blocks), v.blocks, ts, blocks, logged);
        ts := ts + [logged];
        assert res.n == n1;           // "short filewrite" is unreachable
        k, off' := k + n1, off' + n1;
      }
      ret := n;
      ChunkEnd(sb, v0, owner0, Now(), owner, i, off, k, addr);
    }
  }
}
