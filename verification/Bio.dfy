// The buffer cache of bio.c over the synchronous disk of memide.c.
module BufferCache {
  import opened Bytes

  const NBUF: nat := 30
  const HEAD: nat := NBUF        // index standing for &bcache.head
  const ROOTDEV: Word32 := 1

  // struct buf; the pointers prev and next are indices into the buffer array.
  datatype Buf = Buf(valid: bool, dirty: bool, dev: Word32, blockno: Word32, refcnt: nat,
                     prev: nat, next: nat, data: Block)

  // One block write that reached the disk.
  datatype Write = Write(blockno: nat, data: Block)

  // Positions j and k are consecutive on a cycle of NBUF + 1.
  ghost predicate Adjacent(j: nat, k: nat) {
    j <= NBUF && k == if j == NBUF then 0 else j + 1
  }

  // bs is linked into one cycle that visits ring[0] = head, ring[1] (most
  // recently used), ..., ring[NBUF] and every buffer exactly once.
  ghost predicate Linked(bs: seq<Buf>, ring: seq<nat>) {
    && |bs| == NBUF + 1
    && Cycle(ring)
    && (forall j: nat, k: nat {:trigger Adjacent(j, k)} | Adjacent(j, k) ::
          bs[ring[j]].next == ring[k] && bs[ring[k]].prev == ring[j])
  }

  ghost predicate Cycle(ring: seq<nat>) {
    && |ring| == NBUF + 1
    && ring[0] == HEAD
    && (forall k | 0 <= k <= NBUF :: ring[k] <= NBUF)
    && (forall j, k | 0 <= j < k <= NBUF :: ring[j] != ring[k])
    && (forall i | 0 <= i <= NBUF :: i in ring)
  }

  ghost predicate Names(x: Buf, dev: Word32, blockno: nat) {
    x.dev == dev && x.blockno == blockno
  }

  predicate Recyclable(x: Buf) {
    x.refcnt == 0 && !x.dirty
  }

  // No block of a real device has two buffers. Boot leaves all buffers at
  // (0, 0), so device 0 is exempt.
  ghost predicate Unique(bs: seq<Buf>)
    requires |bs| == NBUF + 1
  {
    forall i, j | 0 <= i < NBUF && 0 <= j < NBUF && i != j ::
      bs[i].dev == bs[j].dev && bs[i].blockno == bs[j].blockno ==> bs[i].dev == 0
  }

  // An idle clean buffer agrees with the disk; only read or written buffers
  // are valid or dirty.
  ghost predicate Coherent(bs: seq<Buf>, disk: seq<Block>)
    requires |bs| == NBUF + 1
  {
    forall i | 0 <= i < NBUF ::
      && (bs[i].dirty ==> bs[i].valid)
      && (bs[i].valid ==> bs[i].dev == ROOTDEV && bs[i].blockno < |disk|)
      && (bs[i].valid && Recyclable(bs[i]) ==> bs[i].data == disk[bs[i].blockno])
  }

  ghost predicate Holds(bs: seq<Buf>, i: nat, b: nat)
    requires |bs| == NBUF + 1
  {
    i < NBUF && bs[i].valid && Names(bs[i], ROOTDEV, b)
  }

  // What a process sees as the content of block b.
  ghost function LogicalAt(bs: seq<Buf>, disk: seq<Block>, b: nat): Block
    requires |bs| == NBUF + 1 && b < |disk|
  {
    if i: nat :| i < NBUF && Holds(bs, i, b) then bs[i].data else disk[b]
  }

  ghost function Logical(bs: seq<Buf>, disk: seq<Block>): (l: seq<Block>)
    requires |bs| == NBUF + 1
    ensures |l| == |disk|
  {
    seq(|disk|, b requires 0 <= b < |disk| => LogicalAt(bs, disk, b))
  }

  lemma LogicalAtHolder(bs: seq<Buf>, disk: seq<Block>, i: nat, b: nat)
    requires |bs| == NBUF + 1 && Unique(bs) && b < |disk| && Holds(bs, i, b)
    ensures LogicalAt(bs, disk, b) == bs[i].data
  {
    assert bs[i].dev == ROOTDEV;
    var j: nat :| j < NBUF && Holds(bs, j, b);
    assert Holds(bs, j, b);
  }

  // What changes for other blocks when one buffer i changes: nothing, if i
  // named none of them before or after, or was clean and idle.
  lemma LogicalAtOther(bs: seq<Buf>, i: nat, x: Buf, disk: seq<Block>, b: nat)
    requires |bs| == NBUF + 1 && i < NBUF && b < |disk|
    requires Unique(bs) && Unique(bs[i := x]) && Coherent(bs, disk)
    requires !(x.valid && Names(x, ROOTDEV, b))
    requires Holds(bs, i, b) ==> Recyclable(bs[i])
    ensures LogicalAt(bs[i := x], disk, b) == LogicalAt(bs, disk, b)
  {
    var bs' := bs[i := x];
    if j: nat :| j < NBUF && Holds(bs, j, b) {
      LogicalAtHolder(bs, disk, j, b);
      if j != i {
        assert Holds(bs', j, b);
        LogicalAtHolder(bs', disk, j, b);
      } else {
        assert forall m: nat | m < NBUF && m != i :: !Holds(bs', m, b);
      }
    } else {
      assert forall m: nat | m < NBUF :: Holds(bs', m, b) ==> m != i && Holds(bs, m, b);
    }
  }

  // The buffer b of bs' is the one bread returned for blockno, taken from bs.
  ghost predicate Acquired(bs: seq<Buf>, bs': seq<Buf>, b: nat, blockno: nat) {
    && |bs| == NBUF + 1 == |bs'|
    && b < NBUF
    && bs' == bs[b := bs'[b]]
    && bs'[b].valid && Names(bs'[b], ROOTDEV, blockno)
    && bs'[b].prev == bs[b].prev && bs'[b].next == bs[b].next
    && (if Names(bs[b], ROOTDEV, blockno) then
          bs'[b].refcnt == bs[b].refcnt + 1 && bs'[b].dirty == bs[b].dirty
        else
          Recyclable(bs[b]) && bs'[b].refcnt == 1 && !bs'[b].dirty)
  }

  lemma AcquiredLogical(bs: seq<Buf>, bs': seq<Buf>, disk: seq<Block>, b: nat, blockno: nat)
    requires |bs| == NBUF + 1 == |bs'|
    requires Unique(bs) && Unique(bs') && Coherent(bs, disk) && Acquired(bs, bs', b, blockno) && blockno < |disk|
    requires bs'[b].data == LogicalAt(bs, disk, blockno)
    ensures Logical(bs', disk) == Logical(bs, disk)
  {
    forall c | 0 <= c < |disk|
      ensures LogicalAt(bs', disk, c) == LogicalAt(bs, disk, c)
    {
      if c == blockno {
        assert Holds(bs', b, c);
        LogicalAtHolder(bs', disk, b, c);
      } else {
        LogicalAtOther(bs, b, bs'[b], disk, c);
      }
    }
  }

  // Which buffer bget returns, and what it does to it.
  ghost predicate Got(bs: seq<Buf>, ring: seq<nat>, bs': seq<Buf>, b: nat, dev: Word32, blockno: Word32)
    requires |bs| == NBUF + 1 && Cycle(ring)
  {
    && b < NBUF
    && if Names(bs[b], dev, blockno) then
         bs' == bs[b := bs[b].(refcnt := bs[b].refcnt + 1)]
       else
         && (forall i | 0 <= i < NBUF :: !Names(bs[i], dev, blockno))
         && LeastRecent(bs, ring, b)
         && bs' == bs[b := bs[b].(dev := dev, blockno := blockno, valid := false, dirty := false, refcnt := 1)]
  }

  // b is the recyclable buffer that comes last in most-recently-used order.
  ghost predicate LeastRecent(bs: seq<Buf>, ring: seq<nat>, b: nat)
    requires |bs| == NBUF + 1 && Cycle(ring)
  {
    exists k :: 0 < k <= NBUF && ring[k] == b && Recyclable(bs[b])
                && forall j | k < j <= NBUF :: !Recyclable(bs[ring[j]])
  }

  // Moving the buffer at position k to the most-recently-used end.
  ghost function ToFront(ring: seq<nat>, k: nat): seq<nat>
    requires 0 < k < |ring|
  {
    [ring[0], ring[k]] + ring[1..k] + ring[k + 1..]
  }

  lemma ToFrontCycle(ring: seq<nat>, k: nat)
    requires Cycle(ring) && 0 < k <= NBUF
    ensures Cycle(ToFront(ring, k))
  {
    var r := ToFront(ring, k);
    forall i | 0 <= i <= NBUF
      ensures i in r
    {
      assert i in ring;
      var j :| 0 <= j < |ring| && ring[j] == i;
      assert i == r[if j == 0 then 0 else if j < k then j + 1 else if j == k then 1 else j];
    }
  }

  // The pointer surgery of brelse: unlink b, then insert it after the head.
  function Unlink(bs: seq<Buf>, b: nat): (r: seq<Buf>)
    requires |bs| == NBUF + 1 && b < NBUF && bs[b].next <= NBUF && bs[b].prev <= NBUF
    ensures |r| == NBUF + 1
  {
    var n, p := bs[b].next, bs[b].prev;
    var s1 := bs[n := bs[n].(prev := p)];
    s1[p := s1[p].(next := n)]
  }

  function InsertFront(bs: seq<Buf>, b: nat): (r: seq<Buf>)
    requires |bs| == NBUF + 1 && b < NBUF && bs[HEAD].next <= NBUF
    ensures |r| == NBUF + 1
  {
    var first := bs[HEAD].next;
    var s1 := bs[b := bs[b].(next := first)];
    var s2 := s1[b := s1[b].(prev := HEAD)];
    var s3 := s2[first := s2[first].(prev := b)];
    s3[HEAD := s3[HEAD].(next := b)]
  }

  function NewNext(bs: seq<Buf>, b: nat, f: nat, x: nat): nat
    requires |bs| == NBUF + 1 && b < NBUF && x <= NBUF
  {
    if x == HEAD then b else if x == b then f else if x == bs[b].prev then bs[b].next else bs[x].next
  }

  function NewPrev(bs: seq<Buf>, b: nat, f: nat, x: nat): nat
    requires |bs| == NBUF + 1 && b < NBUF && x <= NBUF
  {
    if x == b then HEAD else if x == f then b else if x == bs[b].next then bs[b].prev else bs[x].prev
  }

  ghost function PositionOf(ring: seq<nat>, b: nat): (k: nat)
    requires Cycle(ring) && b < NBUF
    ensures 0 < k <= NBUF && ring[k] == b
  {
    assert b in ring;
    var k :| 0 <= k < |ring| && ring[k] == b;
    k
  }

  ghost function MostRecent(ring: seq<nat>, b: nat): seq<nat>
    requires Cycle(ring) && b < NBUF
  {
    ToFront(ring, PositionOf(ring, b))
  }

  // The buffers after brelse of b, links aside.
  ghost predicate Released(bs: seq<Buf>, bs': seq<Buf>, b: nat)
    requires |bs| == NBUF + 1 && b < NBUF && bs[b].refcnt >= 1
  {
    SameButLinks(bs[b := bs[b].(refcnt := bs[b].refcnt - 1)], bs')
  }

  // The links after the surgery, buffer by buffer; f is the new second element.
  lemma MoveFrontFields(bs: seq<Buf>, b: nat, f: nat, x: nat)
    requires |bs| == NBUF + 1 && b < NBUF && bs[b].next <= NBUF && bs[b].prev <= NBUF && x <= NBUF
    requires bs[b].next != b && bs[b].prev != b && f != b && f <= NBUF
    requires f == if bs[b].prev == HEAD then bs[b].next else bs[HEAD].next
    ensures Unlink(bs, b)[HEAD].next == f
    ensures var y := InsertFront(Unlink(bs, b), b)[x];
      y == bs[x].(next := NewNext(bs, b, f, x), prev := NewPrev(bs, b, f, x))
  {
    var s := Unlink(bs, b);
    assert s[x] == bs[x].(next := if x == bs[b].prev then bs[b].next else bs[x].next,
                          prev := if x == bs[b].next then bs[b].prev else bs[x].prev);
  }

  lemma MoveFrontLinked(bs: seq<Buf>, ring: seq<nat>, k: nat)
    requires Linked(bs, ring) && 0 < k <= NBUF
    ensures bs[ring[k]].next <= NBUF && bs[ring[k]].prev <= NBUF && Unlink(bs, ring[k])[HEAD].next <= NBUF
    ensures Linked(InsertFront(Unlink(bs, ring[k]), ring[k]), ToFront(ring, k))
    ensures SameButLinks(bs, InsertFront(Unlink(bs, ring[k]), ring[k]))
  {
    hide Unlink, InsertFront, NewNext, NewPrev;
    assert Adjacent(0, 1) && Adjacent(k - 1, k) && Adjacent(k, if k == NBUF then 0 else k + 1);
    ToFrontCycle(ring, k);
    var b, f := ring[k], if k == 1 then ring[2] else ring[1];
    forall x | 0 <= x <= NBUF
      ensures Unlink(bs, b)[HEAD].next == f
      ensures InsertFront(Unlink(bs, b), b)[x] == bs[x].(next := NewNext(bs, b, f, x), prev := NewPrev(bs, b, f, x))
    {
      MoveFrontFields(bs, b, f, x);
    }
    var r, bs' := ToFront(ring, k), InsertFront(Unlink(bs, b), b);
    forall j: nat, m: nat | Adjacent(j, m)
      ensures bs'[r[j]].next == r[m] && bs'[r[m]].prev == r[j]
    {
      MoveFrontStep(bs, ring, k, j, m);
    }
  }

  lemma MoveFrontStep(bs: seq<Buf>, ring: seq<nat>, k: nat, j: nat, m: nat)
    requires Linked(bs, ring) && 0 < k <= NBUF && Adjacent(j, m)
    ensures var r := ToFront(ring, k);
      var f := if k == 1 then ring[2] else ring[1];
      && Cycle(r)
      && NewNext(bs, ring[k], f, r[j]) == r[m] && NewPrev(bs, ring[k], f, r[m]) == r[j]
  {
    var after := if k == NBUF then 0 else k + 1;
    assert Adjacent(0, 1) && Adjacent(k - 1, k) && Adjacent(k, after);
    ToFrontCycle(ring, k);
    var r := ToFront(ring, k);
    if j >= 2 {
      var i := if j <= k then j - 1 else j;   // old position of r[j]
      var i' := if i == NBUF then 0 else i + 1;
      assert Adjacent(i, i');
      assert r[j] == ring[i];
      assert r[m] == if i == k - 1 then ring[after] else ring[i'];
    }
  }

  ghost predicate SameButLinks(bs: seq<Buf>, bs': seq<Buf>) {
    && |bs| == |bs'|
    && forall i | 0 <= i < |bs| :: bs'[i] == bs[i].(prev := bs'[i].prev, next := bs'[i].next)
  }

  ghost predicate Idle(x: Buf) {
    !x.valid && !x.dirty && x.dev == 0 && x.blockno == 0 && x.refcnt == 0
  }

  // The order in which binit leaves the buffers.
  ghost function BootRing(): (r: seq<nat>) {
    seq(NBUF + 1, k requires 0 <= k <= NBUF => if k == 0 then HEAD else NBUF - k)
  }

  lemma BootCycle(r: seq<nat>)
    requires |r| == NBUF + 1 && r[0] == HEAD && forall k | 0 < k <= NBUF :: r[k] == NBUF - k
    ensures Cycle(r)
  {
    forall i | 0 <= i <= NBUF
      ensures i in r
    {
      assert r[if i == NBUF then 0 else NBUF - i] == i;
    }
  }

  lemma BootLinked(bs: seq<Buf>, r: seq<nat>)
    requires |bs| == NBUF + 1 && Cycle(r)
    requires r[0] == HEAD && forall k | 0 < k <= NBUF :: r[k] == NBUF - k
    requires bs[HEAD].next == NBUF - 1 && bs[HEAD].prev == 0
    requires forall i | 0 <= i < NBUF :: bs[i].next == if i == 0 then HEAD else i - 1
    requires forall i | 0 <= i < NBUF :: bs[i].prev == if i == NBUF - 1 then HEAD else i + 1
    ensures Linked(bs, r)
  {
    forall j: nat, k: nat | Adjacent(j, k)
      ensures bs[r[j]].next == r[k] && bs[r[k]].prev == r[j]
    {
    }
  }

  lemma BootContent(bs: seq<Buf>, disk: seq<Block>)
    requires |bs| == NBUF + 1 && forall i | 0 <= i <= NBUF :: Idle(bs[i])
    ensures Unique(bs) && Coherent(bs, disk) && Logical(bs, disk) == disk
  {
    forall b | 0 <= b < |disk|
      ensures LogicalAt(bs, disk, b) == disk[b]
    {
      assert forall i: nat | i < NBUF :: !Holds(bs, i, b);
    }
  }

  // A buffer change that keeps the links and the name keeps the structure.
  lemma GotKeeps(bs: seq<Buf>, ring: seq<nat>, bs': seq<Buf>, b: nat, dev: Word32, blockno: Word32)
    requires Linked(bs, ring) && Unique(bs) && dev != 0 && Got(bs, ring, bs', b, dev, blockno)
    ensures Linked(bs', ring) && Unique(bs')
  {
  }

  // Changing one buffer that keeps its name and links.
  lemma UpdateKeeps(bs: seq<Buf>, ring: seq<nat>, b: nat, x: Buf)
    requires Linked(bs, ring) && Unique(bs) && b < NBUF
    requires x.next == bs[b].next && x.prev == bs[b].prev && x.dev == bs[b].dev && x.blockno == bs[b].blockno
    ensures Linked(bs[b := x], ring) && Unique(bs[b := x])
  {
  }

  // The content map after one valid buffer and its block on disk change.
  lemma UpdateLogical(bs: seq<Buf>, disk: seq<Block>, b: nat, x: Buf, disk': seq<Block>)
    requires |bs| == NBUF + 1 && b < NBUF && Unique(bs) && Coherent(bs, disk)
    requires bs[b].valid && x.valid && x.dev == bs[b].dev && x.blockno == bs[b].blockno
    requires disk' == disk || disk' == disk[bs[b].blockno := x.data]
    ensures Logical(bs[b := x], disk') == Logical(bs, disk)[bs[b].blockno := x.data]
  {
    var bs' := bs[b := x];
    assert Unique(bs');
    forall c | 0 <= c < |disk|
      ensures LogicalAt(bs', disk', c) == if c == bs[b].blockno then x.data else LogicalAt(bs, disk, c)
    {
      if c == bs[b].blockno {
        assert Holds(bs', b, c);
        LogicalAtHolder(bs', disk', b, c);
      } else {
        LogicalAtOther(bs, b, x, disk, c);
        assert disk'[c] == disk[c];
        if i: nat :| i < NBUF && Holds(bs', i, c) {
          LogicalAtHolder(bs', disk, i, c);
          LogicalAtHolder(bs', disk', i, c);
        }
      }
    }
  }

  // Relinking changes no content.
  lemma RelinkKeeps(bs: seq<Buf>, bs': seq<Buf>, disk: seq<Block>)
    requires |bs| == NBUF + 1 && Unique(bs) && Coherent(bs, disk) && SameButLinks(bs, bs')
    ensures Unique(bs') && Coherent(bs', disk) && Logical(bs', disk) == Logical(bs, disk)
  {
    forall c | 0 <= c < |disk|
      ensures LogicalAt(bs', disk, c) == LogicalAt(bs, disk, c)
    {
      assert forall i: nat | i < NBUF :: Holds(bs', i, c) == Holds(bs, i, c);
      if i: nat :| i < NBUF && Holds(bs, i, c) {
        LogicalAtHolder(bs, disk, i, c);
        LogicalAtHolder(bs', disk, i, c);
      }
    }
  }

  // bget followed by the disk read of an invalid buffer.
  lemma ReadKeeps(bs: seq<Buf>, ring: seq<nat>, mid: seq<Buf>, b: nat, blockno: Word32, disk: seq<Block>)
    requires Linked(bs, ring) && Unique(bs) && Coherent(bs, disk) && blockno < |disk|
    requires Got(bs, ring, mid, b, ROOTDEV, blockno)
    ensures mid[b].valid || !mid[b].dirty
    ensures var bs' := if mid[b].valid then mid else mid[b := mid[b].(valid := true, data := disk[blockno])];
      && Linked(bs', ring) && Unique(bs') && Coherent(bs', disk)
      && Acquired(bs, bs', b, blockno)
      && bs'[b].data == LogicalAt(bs, disk, blockno)
      && Logical(bs', disk) == Logical(bs, disk)
  {
    GotKeeps(bs, ring, mid, b, ROOTDEV, blockno);
    var bs' := if mid[b].valid then mid else mid[b := mid[b].(valid := true, data := disk[blockno])];
    assert Unique(bs');
    if Holds(bs, b, blockno) {
      LogicalAtHolder(bs, disk, b, blockno);
    } else {
      assert forall i: nat | i < NBUF :: !Holds(bs, i, blockno);
    }
    AcquiredLogical(bs, bs', disk, b, blockno);
  }

  class Cache {
    const bufs: array<Buf>
    var disk: seq<Block>
    ghost var ring: seq<nat>
    ghost var writes: seq<Write>

    ghost predicate Valid()
      reads this, bufs
    {
      && bufs.Length == NBUF + 1
      && Linked(bufs[..], ring)
      && Unique(bufs[..])
      && Coherent(bufs[..], disk)
    }

    ghost function Content(): seq<Block>
      reads this, bufs
      requires bufs.Length == NBUF + 1
    {
      Logical(bufs[..], disk)
    }

    // binit: all buffers idle, invalid, at (0, 0), linked behind the head.
    constructor (image: seq<Block>)
      ensures Valid() && fresh(bufs)
      ensures disk == image && writes == []
      ensures Content() == image
      ensures forall i | 0 <= i < NBUF :: Recyclable(bufs[i]) && !bufs[i].valid
    {
      bufs := new Buf[NBUF + 1](_ => Buf(false, false, 0, 0, 0, HEAD, HEAD, ZeroBlock()));
      disk := image;
      writes := [];
      new;
      for b := 0 to NBUF
        invariant disk == image && writes == []
        invariant forall i | 0 <= i <= NBUF :: Idle(bufs[i])
        invariant bufs[HEAD].next == (if b == 0 then HEAD else b - 1)
        invariant bufs[HEAD].prev == (if b == 0 then HEAD else 0)
        invariant forall i | 0 <= i < b :: bufs[i].next == if i == 0 then HEAD else i - 1
        invariant forall i | 0 <= i < b :: bufs[i].prev == if i == b - 1 then HEAD else i + 1
      {
        bufs[b] := bufs[b].(next := bufs[HEAD].next);
        bufs[b] := bufs[b].(prev := HEAD);
        var first := bufs[HEAD].next;
        bufs[first] := bufs[first].(prev := b);
        bufs[HEAD] := bufs[HEAD].(next := b);
      }
      ring := BootRing();
      BootCycle(ring);
      BootLinked(bufs[..], ring);
      BootContent(bufs[..], disk);
    }

    // bget, first loop: the buffer that already names the block, else the head.
    method FindNamed(dev: Word32, blockno: Word32) returns (b: nat)
      requires Valid()
      ensures b <= NBUF
      ensures b < NBUF ==> Names(bufs[b], dev, blockno)
      ensures b == HEAD ==> forall i | 0 <= i < NBUF :: !Names(bufs[i], dev, blockno)
    {
      ghost var k := 1;
      b := bufs[HEAD].next;
      assert Adjacent(0, 1);
      while b != HEAD
        invariant 1 <= k <= NBUF + 1 && b == if k <= NBUF then ring[k] else HEAD
        invariant forall j | 0 < j < k :: !Names(bufs[ring[j]], dev, blockno)
        decreases NBUF + 1 - k
      {
        assert k <= NBUF;
        if bufs[b].dev == dev && bufs[b].blockno == blockno {
          return;
        }
        assert Adjacent(k, if k == NBUF then 0 else k + 1);
        b := bufs[b].next;
        k := k + 1;
      }
      forall i | 0 <= i < NBUF
        ensures !Names(bufs[i], dev, blockno)
      {
        assert i in ring;
      }
    }

    // bget, second loop: the least recently used idle clean buffer, else the head.
    method FindRecyclable() returns (b: nat)
      requires Valid()
      ensures b <= NBUF
      ensures b < NBUF ==> LeastRecent(bufs[..], ring, b)
      ensures b == HEAD ==> forall i | 0 <= i < NBUF :: !Recyclable(bufs[i])
    {
      ghost var k := NBUF;
      b := bufs[HEAD].prev;
      assert Adjacent(NBUF, 0);
      while b != HEAD
        invariant 0 <= k <= NBUF && b == ring[k]
        invariant forall j | k < j <= NBUF :: !Recyclable(bufs[ring[j]])
        decreases k
      {
        if bufs[b].refcnt == 0 && !bufs[b].dirty {
          return;
        }
        assert Adjacent(k - 1, k);
        b := bufs[b].prev;
        k := k - 1;
      }
      forall i | 0 <= i < NBUF
        ensures !Recyclable(bufs[i])
      {
        assert i in ring;
      }
    }

    // bget: ok is false exactly where the kernel panics with "bget: no buffers".
    method BGet(dev: Word32, blockno: Word32) returns (ok: bool, b: nat)
      requires Valid() && dev != 0
      modifies bufs
      ensures Linked(bufs[..], ring) && Unique(bufs[..])
      ensures ok <==> exists i: nat :: i < NBUF && (Names(old(bufs[i]), dev, blockno) || Recyclable(old(bufs[i])))
      ensures !ok ==> bufs[..] == old(bufs[..])
      ensures ok ==> Got(old(bufs[..]), ring, bufs[..], b, dev, blockno)
    {
      hide Linked, Unique, Coherent, LeastRecent;
      b := FindNamed(dev, blockno);
      if b == HEAD {
        b := FindRecyclable();
        if b == HEAD {
          return false, b;   // panic("bget: no buffers")
        }
        bufs[b] := bufs[b].(dev := dev, blockno := blockno, valid := false, dirty := false, refcnt := 1);
      } else {
        bufs[b] := bufs[b].(refcnt := bufs[b].refcnt + 1);
      }
      ok := true;
      assert bufs[..] == old(bufs[..])[b := bufs[b]];
      GotKeeps(old(bufs[..]), ring, bufs[..], b, dev, blockno);
    }

    // iderw on the synchronous disk. Its panics are the preconditions.
    method IdeRw(b: nat)
      requires bufs.Length == NBUF + 1 && b < NBUF
      requires bufs[b].dirty || !bufs[b].valid            // else "iderw: nothing to do"
      requires bufs[b].dev == ROOTDEV                     // else "iderw: request not for disk 1"
      requires bufs[b].blockno < |disk|                   // else "iderw: block out of range"
      modifies this`disk, this`writes, bufs
      ensures old(bufs[b]).dirty ==>
        && bufs[..] == old(bufs[..])[b := old(bufs[b]).(dirty := false, valid := true)]
        && disk == old(disk)[bufs[b].blockno := bufs[b].data]
        && writes == old(writes) + [Write(bufs[b].blockno, bufs[b].data)]
      ensures !old(bufs[b]).dirty ==>
        && bufs[..] == old(bufs[..])[b := old(bufs[b]).(valid := true, data := old(disk[bufs[b].blockno]))]
        && disk == old(disk) && writes == old(writes)
    {
      var blockno := bufs[b].blockno;
      if bufs[b].dirty {
        bufs[b] := bufs[b].(dirty := false);
        disk := disk[blockno := bufs[b].data];
        writes := writes + [Write(blockno, bufs[b].data)];
      } else {
        bufs[b] := bufs[b].(data := disk[blockno]);
      }
      bufs[b] := bufs[b].(valid := true);
      assert old(bufs[b]).dirty ==> bufs[..] == old(bufs[..])[b := old(bufs[b]).(dirty := false, valid := true)];
    }

    // bread: a buffer holding the latest content of the block, or the
    // "no buffers" panic. No block changes its content.
    method BRead(blockno: Word32) returns (ok: bool, b: nat)
      requires Valid() && blockno < |disk|
      modifies this`disk, this`writes, bufs
      ensures Valid() && ring == old(ring) && disk == old(disk) && writes == old(writes)
      ensures ok <==> exists i: nat :: i < NBUF && (Names(old(bufs[i]), ROOTDEV, blockno) || Recyclable(old(bufs[i])))
      ensures !ok ==> bufs[..] == old(bufs[..])
      ensures ok ==> Acquired(old(bufs[..]), bufs[..], b, blockno)
      ensures ok ==> bufs[b].data == old(Content())[blockno]
      ensures Content() == old(Content())
    {
      hide Linked, LogicalAt;
      ok, b := BGet(ROOTDEV, blockno);
      if !ok { return; }
      ghost var mid := bufs[..];
      if !bufs[b].valid {
        IdeRw(b);
      }
      ReadKeeps(old(bufs[..]), ring, mid, b, blockno, disk);
    }

    // A client stores into the data of a buffer it holds.
    method Store(b: nat, data: Block)
      requires Valid() && b < NBUF && bufs[b].valid && bufs[b].refcnt >= 1
      modifies bufs
      ensures Valid() && bufs[..] == old(bufs[..])[b := old(bufs[b]).(data := data)]
      ensures Content() == old(Content())[bufs[b].blockno := data]
    {
      hide Linked, LogicalAt;
      UpdateKeeps(bufs[..], ring, b, bufs[b].(data := data));
      UpdateLogical(bufs[..], disk, b, bufs[b].(data := data), disk);
      bufs[b] := bufs[b].(data := data);
      assert bufs[..] == old(bufs[..])[b := bufs[b]];
    }

    // b->flags |= B_DIRTY, as log_write does to keep the buffer cached.
    method Pin(b: nat)
      requires Valid() && b < NBUF && bufs[b].valid && bufs[b].refcnt >= 1
      modifies bufs
      ensures Valid() && bufs[..] == old(bufs[..])[b := old(bufs[b]).(dirty := true)]
      ensures Content() == old(Content())
    {
      hide Linked, LogicalAt;
      LogicalAtHolder(bufs[..], disk, b, bufs[b].blockno);
      UpdateKeeps(bufs[..], ring, b, bufs[b].(dirty := true));
      UpdateLogical(bufs[..], disk, b, bufs[b].(dirty := true), disk);
      bufs[b] := bufs[b].(dirty := true);
      assert bufs[..] == old(bufs[..])[b := bufs[b]];
    }

    // bwrite: the buffer reaches the disk as one block write and is clean again.
    method BWrite(b: nat)
      requires Valid() && b < NBUF && bufs[b].valid && bufs[b].refcnt >= 1
      modifies this`disk, this`writes, bufs
      ensures Valid() && ring == old(ring)
      ensures bufs[..] == old(bufs[..])[b := old(bufs[b]).(dirty := false)]
      ensures disk == old(disk)[bufs[b].blockno := bufs[b].data]
      ensures writes == old(writes) + [Write(bufs[b].blockno, bufs[b].data)]
      ensures Content() == old(Content())
    {
      hide Linked, LogicalAt;
      ghost var x := bufs[b].(dirty := false);
      LogicalAtHolder(bufs[..], disk, b, x.blockno);
      UpdateKeeps(bufs[..], ring, b, x);
      UpdateLogical(bufs[..], disk, b, x, disk[x.blockno := x.data]);
      bufs[b] := bufs[b].(dirty := true);
      IdeRw(b);
      assert bufs[..] == old(bufs[..])[b := x];
    }

    // brelse. A buffer given up clean must agree with the disk: a client that
    // changed it has called bwrite or log_write first.
    method BRelse(b: nat)
      requires Valid() && b < NBUF && bufs[b].valid && bufs[b].refcnt >= 1
      requires !bufs[b].dirty && bufs[b].refcnt == 1 ==> bufs[b].data == disk[bufs[b].blockno]
      modifies this`ring, bufs
      ensures Valid() && Released(old(bufs[..]), bufs[..], b)
      ensures ring == (if old(bufs[b]).refcnt > 1 then old(ring) else MostRecent(old(ring), b))
      ensures Content() == old(Content())
    {
      hide Linked, LogicalAt, Unlink, InsertFront;
      ghost var bs, x := bufs[..], bufs[b].(refcnt := bufs[b].refcnt - 1);
      LogicalAtHolder(bs, disk, b, x.blockno);
      UpdateKeeps(bs, ring, b, x);
      UpdateLogical(bs, disk, b, x, disk);
      bufs[b] := bufs[b].(refcnt := bufs[b].refcnt - 1);
      ghost var mid := bufs[..];
      assert mid == bs[b := x];
      if bufs[b].refcnt == 0 {
        ghost var k := PositionOf(ring, b);
        MoveFrontLinked(mid, ring, k);
        RelinkKeeps(mid, InsertFront(Unlink(mid, b), b), disk);
        ring := ToFront(ring, k);
        Relink(b);
      }
    }

    // The six pointer assignments of brelse.
    method Relink(b: nat)
      requires bufs.Length == NBUF + 1 && b < NBUF && bufs[b].next <= NBUF && bufs[b].prev <= NBUF
      requires Unlink(bufs[..], b)[HEAD].next <= NBUF
      modifies bufs
      ensures bufs[..] == InsertFront(Unlink(old(bufs[..]), b), b)
    {
      var n, p := bufs[b].next, bufs[b].prev;
      bufs[n] := bufs[n].(prev := p);
      bufs[p] := bufs[p].(next := n);
      assert bufs[..] == Unlink(old(bufs[..]), b);
      var first := bufs[HEAD].next;
      bufs[b] := bufs[b].(next := first);
      bufs[b] := bufs[b].(prev := HEAD);
      bufs[first] := bufs[first].(prev := b);
      bufs[HEAD] := bufs[HEAD].(next := b);
    }
  }
}
