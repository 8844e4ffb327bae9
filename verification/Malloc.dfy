// umalloc.c: the circular, address-ordered free list. Addresses and sizes are
// in units of one Header; &base lies below the heap.
module FreeList {
  import opened Bytes
  import opened Common

  const NULL: nat := 0
  const BASE: nat := 1
  const HEADER: int := 8              // sizeof(Header)
  const MINCORE: nat := 4096          // smallest request to sbrk, in units

  datatype Header = Header(ptr: nat, size: nat)

  // A block of size units starting at its header.
  datatype Blk = Blk(addr: nat, size: nat) {
    function End(): nat { addr + size }
    predicate Has(x: nat) { addr <= x < addr + size }
  }

  // Node k of the ring: base, then the free blocks in address order.
  function Node(fl: seq<Blk>, k: nat): nat
    requires k <= |fl|
  {
    if k == 0 then BASE else fl[k - 1].addr
  }

  // Strictly ascending, disjoint and fully coalesced: no two blocks touch.
  ghost predicate Ordered(fl: seq<Blk>) {
    && (forall k | 0 <= k < |fl| :: BASE < fl[k].addr && 0 < fl[k].size)
    && (forall j, k | 0 <= j < k < |fl| :: fl[j].End() < fl[k].addr)
  }

  function NodeSize(fl: seq<Blk>, k: nat): nat
    requires k <= |fl|
  {
    if k == 0 then 0 else fl[k - 1].size
  }

  ghost predicate NodeOk(mem: map<nat, Header>, fl: seq<Blk>, j: nat)
    requires j <= |fl|
  {
    && Node(fl, j) in mem
    && mem[Node(fl, j)] == Header(Node(fl, if j == |fl| then 0 else j + 1), NodeSize(fl, j))
  }

  // The headers in memory form the ring of fl.
  ghost predicate Linked(mem: map<nat, Header>, fl: seq<Blk>) {
    forall j: nat | j <= |fl| :: NodeOk(mem, fl, j)
  }

  // How many free blocks lie below address a.
  function Pos(fl: seq<Blk>, a: nat): (k: nat)
    ensures k <= |fl|
    ensures Ordered(fl) ==> (forall j | 0 <= j < k :: fl[j].addr < a) && (forall j | k <= j < |fl| :: a <= fl[j].addr)
  {
    if fl == [] then 0
    else if fl[|fl| - 1].addr < a then |fl|
    else
      var rest := fl[..|fl| - 1];
      assert forall j | 0 <= j < |rest| :: rest[j] == fl[j];
      assert Ordered(fl) ==> Ordered(rest);
      Pos(rest, a)
  }

  // ---------- free ----------

  // Block b lies in the gap at position k.
  ghost predicate Fits(fl: seq<Blk>, k: nat, b: Blk) {
    && k <= |fl| && BASE < b.addr && 0 < b.size
    && (forall j | 0 <= j < k :: fl[j].End() <= b.addr)
    && (forall j | k <= j < |fl| :: b.End() <= fl[j].addr)
  }

  predicate Up(fl: seq<Blk>, k: nat, b: Blk) { k < |fl| && b.End() == fl[k].addr }

  predicate Down(fl: seq<Blk>, k: nat, b: Blk) { 0 < k <= |fl| && fl[k - 1].End() == b.addr }

  ghost predicate Ascending(fl: seq<Blk>) {
    && (forall k | 0 <= k < |fl| :: BASE < fl[k].addr)
    && (forall j, k | 0 <= j < k < |fl| :: fl[j].addr < fl[k].addr)
  }

  function Insert(fl: seq<Blk>, k: nat, b: Blk): seq<Blk>
    requires k <= |fl|
  {
    fl[..k] + [b] + fl[k..]
  }

  // Blocks i and i + 1 become one.
  function Join(fl: seq<Blk>, i: nat): seq<Blk>
    requires i + 1 < |fl|
  {
    fl[..i] + [Blk(fl[i].addr, fl[i].size + fl[i + 1].size)] + fl[i + 2..]
  }

  // The free blocks after freeing b at position k: joined with the neighbours
  // it touches.
  function Coalesce(fl: seq<Blk>, k: nat, b: Blk): seq<Blk>
    requires k <= |fl|
  {
    var f1 := Insert(fl, k, b);
    var f2 := if Up(fl, k, b) then Join(f1, k) else f1;
    if Down(fl, k, b) then Join(f2, k - 1) else f2
  }

  // Header stores that link bp after p, and that absorb the successor of x.
  function LinkStores(mem: map<nat, Header>, p: nat, bp: nat): map<nat, Header>
    requires p in mem && bp in mem
  {
    mem[bp := mem[bp].(ptr := mem[p].ptr)][p := mem[p].(ptr := bp)]
  }

  function JoinStores(mem: map<nat, Header>, x: nat): map<nat, Header>
    requires x in mem && mem[x].ptr in mem
  {
    mem[x := Header(mem[mem[x].ptr].ptr, mem[x].size + mem[mem[x].ptr].size)]
  }

  // The header stores of free, for predecessor p of block bp.
  function FreeStores(mem: map<nat, Header>, p: nat, bp: nat): (m: map<nat, Header>)
    requires p in mem && bp in mem && mem[p].ptr in mem
  {
    var next := mem[p].ptr;
    var m1 := if bp + mem[bp].size == next
              then mem[bp := Header(mem[next].ptr, mem[bp].size + mem[next].size)]
              else mem[bp := mem[bp].(ptr := next)];
    if p + m1[p].size == bp then m1[p := Header(m1[bp].ptr, m1[p].size + m1[bp].size)]
    else m1[p := m1[p].(ptr := bp)]
  }

  lemma LinkedAt(mem: map<nat, Header>, fl: seq<Blk>, j: nat)
    requires Linked(mem, fl) && j <= |fl|
    ensures Node(fl, j) in mem && mem[Node(fl, j)].size == NodeSize(fl, j)
    ensures var m := if j == |fl| then 0 else j + 1;
      Node(fl, m) in mem && mem[Node(fl, j)].ptr == Node(fl, m)
  {
    assert NodeOk(mem, fl, j) && NodeOk(mem, fl, if j == |fl| then 0 else j + 1);
  }

  lemma InsertLinked(mem: map<nat, Header>, fl: seq<Blk>, k: nat, b: Blk)
    requires Linked(mem, fl) && k <= |fl| && Ascending(Insert(fl, k, b))
    requires b.addr in mem && mem[b.addr].size == b.size
    ensures Node(fl, k) in mem && Linked(LinkStores(mem, Node(fl, k), b.addr), Insert(fl, k, b))
  {
    LinkedAt(mem, fl, k);
    var fl' := Insert(fl, k, b);
    var mem' := LinkStores(mem, Node(fl, k), b.addr);
    assert Node(fl', k + 1) == b.addr && Node(fl', k) == Node(fl, k);
    forall j: nat | j <= |fl'|
      ensures NodeOk(mem', fl', j)
    {
      if j <= k {
        LinkedAt(mem, fl, j);
      } else if j > k + 1 {
        LinkedAt(mem, fl, j - 1);
      }
    }
  }

  lemma JoinLinked(mem: map<nat, Header>, fl: seq<Blk>, i: nat)
    requires Linked(mem, fl) && i + 1 < |fl| && Ascending(fl)
    ensures fl[i].addr in mem && mem[fl[i].addr].ptr in mem
    ensures Linked(JoinStores(mem, fl[i].addr), Join(fl, i)) && Ascending(Join(fl, i))
  {
    LinkedAt(mem, fl, i + 1);
    LinkedAt(mem, fl, i + 2);
    var fl' := Join(fl, i);
    var mem' := JoinStores(mem, fl[i].addr);
    forall j: nat | j <= |fl'|
      ensures NodeOk(mem', fl', j)
    {
      LinkedAt(mem, fl, if j <= i then j else j + 1);
    }
  }

  lemma InsertAscending(fl: seq<Blk>, k: nat, b: Blk)
    requires Ordered(fl) && Fits(fl, k, b)
    ensures Ascending(Insert(fl, k, b))
  {
  }

  // The stores of free realise Coalesce.
  lemma FreeLinked(mem: map<nat, Header>, fl: seq<Blk>, k: nat, b: Blk)
    requires Ordered(fl) && Linked(mem, fl) && Fits(fl, k, b)
    requires b.addr in mem && mem[b.addr].size == b.size
    ensures Node(fl, k) in mem && mem[Node(fl, k)].ptr in mem
    ensures Linked(FreeStores(mem, Node(fl, k), b.addr), Coalesce(fl, k, b))
  {
    var p := Node(fl, k);
    LinkedAt(mem, fl, k);
    var next := mem[p].ptr;
    if k < |fl| { LinkedAt(mem, fl, k + 1); }
    InsertAscending(fl, k, b);
    InsertLinked(mem, fl, k, b);
    GapStores(fl, k, b, p, mem[p], next);
    StoresAs(mem, p, b.addr);
    var m1, f1 := LinkStores(mem, p, b.addr), Insert(fl, k, b);
    var m2, f2 := m1, f1;
    hide Linked, Ordered, Fits, LinkStores, FreeStores, Ascending;
    if Up(fl, k, b) {
      JoinLinked(m1, f1, k);
      m2, f2 := JoinStores(m1, b.addr), Join(f1, k);
    }
    if Down(fl, k, b) {
      assert f2[k - 1].addr == p;
      JoinLinked(m2, f2, k - 1);
    }
  }

  lemma GapStores(fl: seq<Blk>, k: nat, b: Blk, p: nat, h: Header, next: nat)
    requires Ordered(fl) && Fits(fl, k, b) && p == Node(fl, k) && h.size == NodeSize(fl, k)
    requires next == Node(fl, if k == |fl| then 0 else k + 1)
    ensures b.End() == next <==> Up(fl, k, b)
    ensures p + h.size == b.addr <==> Down(fl, k, b)
    ensures p != b.addr && next != b.addr && (Up(fl, k, b) ==> next != p)
  {
  }

  // The stores of free link the block in, and then absorb the neighbours.
  lemma StoresAs(mem: map<nat, Header>, p: nat, bp: nat)
    requires p in mem && bp in mem && mem[p].ptr in mem && p != bp && mem[p].ptr != bp
    requires bp + mem[bp].size == mem[p].ptr ==> mem[p].ptr != p
    ensures var m1 := LinkStores(mem, p, bp);
      && m1[bp].ptr in m1
      && var m2 := if bp + mem[bp].size == mem[p].ptr then JoinStores(m1, bp) else m1;
      && FreeStores(mem, p, bp) == if p + mem[p].size == bp then JoinStores(m2, p) else m2
  {
  }

  // Coalesce in one step: blocks lo..hi and b become the block m.
  function Lo(fl: seq<Blk>, k: nat, b: Blk): nat { if Down(fl, k, b) then k - 1 else k }

  function Hi(fl: seq<Blk>, k: nat, b: Blk): nat { if Up(fl, k, b) then k + 1 else k }

  function Merged(fl: seq<Blk>, k: nat, b: Blk): Blk {
    Blk(if Down(fl, k, b) then fl[k - 1].addr else b.addr,
        (if Down(fl, k, b) then fl[k - 1].size else 0) + b.size + (if Up(fl, k, b) then fl[k].size else 0))
  }

  lemma CoalesceForm(fl: seq<Blk>, k: nat, b: Blk)
    requires k <= |fl|
    ensures Lo(fl, k, b) <= Hi(fl, k, b) <= |fl|
    ensures Coalesce(fl, k, b) == fl[..Lo(fl, k, b)] + [Merged(fl, k, b)] + fl[Hi(fl, k, b)..]
  {
    if Up(fl, k, b) {
      JoinUp(fl, k, b);
    }
    if Down(fl, k, b) {
      var b2 := if Up(fl, k, b) then Blk(b.addr, b.size + fl[k].size) else b;
      JoinDown(fl, k, b2, Hi(fl, k, b));
    }
  }

  lemma JoinUp(fl: seq<Blk>, k: nat, b: Blk)
    requires k < |fl|
    ensures Join(Insert(fl, k, b), k) == fl[..k] + [Blk(b.addr, b.size + fl[k].size)] + fl[k + 1..]
  {
    var f := Insert(fl, k, b);
    assert f[..k] == fl[..k] && f[k] == b && f[k + 1] == fl[k] && f[k + 2..] == fl[k + 1..];
  }

  lemma JoinDown(fl: seq<Blk>, k: nat, b: Blk, hi: nat)
    requires 0 < k <= hi <= |fl|
    ensures Join(fl[..k] + [b] + fl[hi..], k - 1)
         == fl[..k - 1] + [Blk(fl[k - 1].addr, fl[k - 1].size + b.size)] + fl[hi..]
  {
    var f := fl[..k] + [b] + fl[hi..];
    assert f[..k - 1] == fl[..k - 1] && f[k - 1] == fl[k - 1] && f[k] == b && f[k + 1..] == fl[hi..];
  }

  // Freeing keeps the list ordered and coalesced.
  lemma CoalesceOrdered(fl: seq<Blk>, k: nat, b: Blk)
    requires Ordered(fl) && Fits(fl, k, b)
    ensures Ordered(Coalesce(fl, k, b))
  {
    CoalesceForm(fl, k, b);
    SpliceOrdered(fl, Lo(fl, k, b), Hi(fl, k, b), Merged(fl, k, b));
  }

  lemma SpliceOrdered(fl: seq<Blk>, lo: nat, hi: nat, m: Blk)
    requires Ordered(fl) && lo <= hi <= |fl| && BASE < m.addr && 0 < m.size
    requires forall j | 0 <= j < lo :: fl[j].End() < m.addr
    requires forall j | hi <= j < |fl| :: m.End() < fl[j].addr
    ensures Ordered(fl[..lo] + [m] + fl[hi..])
  {
    var f := fl[..lo] + [m] + fl[hi..];
    forall i, j | 0 <= i < j < |f|
      ensures f[i].End() < f[j].addr
    {
      assert f[i] == if i < lo then fl[i] else if i == lo then m else fl[i - lo - 1 + hi];
      assert f[j] == if j < lo then fl[j] else if j == lo then m else fl[j - lo - 1 + hi];
    }
  }

  // ---------- malloc ----------

  // nunits, with the 32-bit wrap-around of nbytes + sizeof(Header) - 1.
  function Units(nbytes: nat): (n: nat)
    ensures n >= 1
  {
    (nbytes + HEADER - 1) % TWO32 / HEADER + 1
  }

  // The data units behind the header hold nbytes exactly when the sum in
  // Units does not wrap: malloc(0xffffffff) asks for one unit.
  lemma UnitsEnough(nbytes: nat)
    requires nbytes < TWO32
    ensures HEADER * (Units(nbytes) - 1) >= nbytes <==> nbytes + HEADER - 1 < TWO32
  {
    if nbytes + HEADER - 1 >= TWO32 {
      assert (nbytes + HEADER - 1) % TWO32 == nbytes + HEADER - 1 - TWO32;
    }
  }

  // It is the least number m of units with a header and room for nbytes; or one
  // unit, if the sum wraps.
  lemma UnitsExact(nbytes: nat, m: nat)
    requires nbytes < TWO32
    ensures nbytes + HEADER - 1 < TWO32 ==> (m >= Units(nbytes) <==> m >= 1 && HEADER * (m - 1) >= nbytes)
    ensures nbytes + HEADER - 1 >= TWO32 ==> Units(nbytes) == 1
  {
  }

  // No free block has a header and room for nbytes.
  predicate NoRoom(fl: seq<Blk>, nbytes: nat) {
    forall k | 0 <= k < |fl| :: HEADER * (fl[k].size - 1) < nbytes
  }

  lemma SmallNoRoom(fl: seq<Blk>, nbytes: nat)
    requires nbytes < TWO32 && forall k | 0 <= k < |fl| :: fl[k].size < Units(nbytes)
    ensures NoRoom(fl, nbytes)
  {
    forall k | 0 <= k < |fl|
      ensures HEADER * (fl[k].size - 1) < nbytes
    {
      UnitsExact(nbytes, fl[k].size);
    }
  }

  function Remove(fl: seq<Blk>, i: nat): seq<Blk>
    requires i < |fl|
  {
    fl[..i] + fl[i + 1..]
  }

  function Shrink(fl: seq<Blk>, i: nat, n: nat): seq<Blk>
    requires i < |fl| && n < fl[i].size
  {
    fl[i := Blk(fl[i].addr, fl[i].size - n)]
  }

  // The free blocks after taking n units from block i: all of it, or its tail.
  function Take(fl: seq<Blk>, i: nat, n: nat): seq<Blk>
    requires i < |fl| && n <= fl[i].size
  {
    if fl[i].size == n then Remove(fl, i) else Shrink(fl, i, n)
  }

  lemma TakeOrdered(fl: seq<Blk>, i: nat, n: nat)
    requires Ordered(fl) && i < |fl| && n <= fl[i].size
    ensures Ordered(Take(fl, i, n))
  {
    if fl[i].size == n {
      var f := Remove(fl, i);
      forall j | 0 <= j < |f|
        ensures f[j] == fl[if j < i then j else j + 1]
      {
      }
    }
  }

  lemma RemoveLinked(mem: map<nat, Header>, fl: seq<Blk>, i: nat)
    requires Linked(mem, fl) && Ordered(fl) && i < |fl|
    ensures Node(fl, i) in mem && fl[i].addr in mem
    ensures Linked(mem[Node(fl, i) := mem[Node(fl, i)].(ptr := mem[fl[i].addr].ptr)], Remove(fl, i))
  {
    LinkedAt(mem, fl, i);
    LinkedAt(mem, fl, i + 1);
    var fl' := Remove(fl, i);
    var mem' := mem[Node(fl, i) := mem[Node(fl, i)].(ptr := mem[fl[i].addr].ptr)];
    forall j: nat | j <= |fl'|
      ensures NodeOk(mem', fl', j)
    {
      LinkedAt(mem, fl, if j <= i then j else j + 1);
    }
  }

  // Stores that touch no header of the ring.
  lemma LinkedFrame(mem: map<nat, Header>, mem': map<nat, Header>, fl: seq<Blk>)
    requires Linked(mem, fl)
    requires forall j: nat | j <= |fl| && Node(fl, j) in mem :: Node(fl, j) in mem' && mem'[Node(fl, j)] == mem[Node(fl, j)]
    ensures Linked(mem', fl)
  {
    forall j: nat | j <= |fl|
      ensures NodeOk(mem', fl, j)
    {
      assert NodeOk(mem, fl, j);
    }
  }

  lemma ShrinkLinked(mem: map<nat, Header>, fl: seq<Blk>, i: nat, n: nat, junk: nat)
    requires Linked(mem, fl) && Ordered(fl) && i < |fl| && 0 < n < fl[i].size
    ensures fl[i].addr in mem && mem[fl[i].addr].size == fl[i].size
    ensures var p, left := fl[i].addr, fl[i].size - n;
      Linked(mem[p := mem[p].(size := left)][p + left := Header(junk, n)], Shrink(fl, i, n))
  {
    LinkedAt(mem, fl, i + 1);
    var p, left := fl[i].addr, fl[i].size - n;
    var fl' := Shrink(fl, i, n);
    var mem' := mem[p := mem[p].(size := left)][p + left := Header(junk, n)];
    forall j: nat | j <= |fl'|
      ensures NodeOk(mem', fl', j)
    {
      LinkedAt(mem, fl, j);
      assert Node(fl', j) == Node(fl, j);
    }
  }

  // ---------- who has which unit ----------

  type Live = map<nat, nat>     // header address and size of each allocated block

  ghost predicate InFree(fl: seq<Blk>, x: nat) {
    exists k: nat :: k < |fl| && fl[k].Has(x)
  }

  ghost predicate InLive(live: Live, x: nat) {
    exists a: nat :: a in live && Blk(a, live[a]).Has(x)
  }

  // Allocated blocks overlap neither each other nor a free block.
  ghost predicate Separate(fl: seq<Blk>, live: Live) {
    && (forall a | a in live :: BASE < a && 0 < live[a])
    && (forall a, c | a in live && c in live && a != c :: a + live[a] <= c || c + live[c] <= a)
    && (forall a, k | a in live && 0 <= k < |fl| :: fl[k].End() <= a || a + live[a] <= fl[k].addr)
  }

  // Every unit obtained from sbrk is in a free or an allocated block, and
  // nothing else is.
  ghost predicate Conserved(arena: set<nat>, fl: seq<Blk>, live: Live) {
    forall x: nat :: x in arena <==> InFree(fl, x) || InLive(live, x)
  }

  lemma LiveFits(fl: seq<Blk>, live: Live, a: nat)
    requires Ordered(fl) && Separate(fl, live) && a in live
    ensures Fits(fl, Pos(fl, a), Blk(a, live[a]))
  {
  }

  lemma InFreeInsert(fl: seq<Blk>, k: nat, b: Blk, x: nat)
    requires k <= |fl|
    ensures InFree(Insert(fl, k, b), x) <==> InFree(fl, x) || b.Has(x)
  {
    var f := Insert(fl, k, b);
    assert f[k] == b;
    if j: nat :| j < |fl| && fl[j].Has(x) { assert f[if j < k then j else j + 1].Has(x); }
    if j: nat :| j < |f| && f[j].Has(x) { assert j != k ==> fl[if j < k then j else j - 1].Has(x); }
  }

  lemma InFreeJoin(fl: seq<Blk>, i: nat, x: nat)
    requires i + 1 < |fl| && fl[i].End() == fl[i + 1].addr
    ensures InFree(Join(fl, i), x) <==> InFree(fl, x)
  {
    var f := Join(fl, i);
    assert f[i] == Blk(fl[i].addr, fl[i].size + fl[i + 1].size);
    if j: nat :| j < |fl| && fl[j].Has(x) { assert f[if j <= i then j else j - 1].Has(x); }
    if j: nat :| j < |f| && f[j].Has(x) {
      if j == i {
        assert fl[i].Has(x) || fl[i + 1].Has(x);
      } else {
        assert fl[if j < i then j else j + 1].Has(x);
      }
    }
  }

  lemma InFreeCoalesce(fl: seq<Blk>, k: nat, b: Blk, x: nat)
    requires Fits(fl, k, b)
    ensures InFree(Coalesce(fl, k, b), x) <==> InFree(fl, x) || b.Has(x)
  {
    InFreeInsert(fl, k, b, x);
    var f1 := Insert(fl, k, b);
    var f2 := if Up(fl, k, b) then Join(f1, k) else f1;
    if Up(fl, k, b) { InFreeJoin(f1, k, x); }
    if Down(fl, k, b) { InFreeJoin(f2, k - 1, x); }
  }

  // Units of live blocks, all but block a.
  lemma InLiveSplit(live: Live, a: nat, x: nat)
    requires a in live
    ensures InLive(live, x) <==> InLive(live - {a}, x) || Blk(a, live[a]).Has(x)
  {
    if c: nat :| c in live && Blk(c, live[c]).Has(x) {
      assert c != a ==> c in live - {a} && Blk(c, (live - {a})[c]).Has(x);
    }
    if c: nat :| c in live - {a} && Blk(c, (live - {a})[c]).Has(x) {
      assert c in live && Blk(c, live[c]).Has(x);
    }
  }

  lemma FreeConserves(arena: set<nat>, fl: seq<Blk>, live: Live, a: nat)
    requires Ordered(fl) && Separate(fl, live) && a in live && Conserved(arena, fl, live)
    ensures var k := Pos(fl, a);
      var fl' := Coalesce(fl, k, Blk(a, live[a]));
      Separate(fl', live - {a}) && Conserved(arena, fl', live - {a})
  {
    var k, b := Pos(fl, a), Blk(a, live[a]);
    LiveFits(fl, live, a);
    var fl' := Coalesce(fl, k, b);
    forall x: nat
      ensures x in arena <==> InFree(fl', x) || InLive(live - {a}, x)
    {
      InFreeCoalesce(fl, k, b, x);
      InLiveSplit(live, a, x);
    }
    forall c, j | c in live - {a} && 0 <= j < |fl'|
      ensures fl'[j].End() <= c || c + live[c] <= fl'[j].addr
    {
      CoalesceApart(fl, k, b, j, Blk(c, live[c]));
    }
  }

  lemma MergedApart(fl: seq<Blk>, k: nat, b: Blk, c: Blk)
    requires Fits(fl, k, b) && Ordered(fl) && 0 < c.size
    requires c.End() <= b.addr || b.End() <= c.addr
    requires forall i | 0 <= i < |fl| :: fl[i].End() <= c.addr || c.End() <= fl[i].addr
    ensures Merged(fl, k, b).End() <= c.addr || c.End() <= Merged(fl, k, b).addr
  {
    hide Ordered;
  }

  // A block apart from b and from all free blocks is apart from the joined one.
  lemma CoalesceApart(fl: seq<Blk>, k: nat, b: Blk, j: nat, c: Blk)
    requires Fits(fl, k, b) && Ordered(fl) && j < |Coalesce(fl, k, b)| && 0 < c.size
    requires c.End() <= b.addr || b.End() <= c.addr
    requires forall i | 0 <= i < |fl| :: fl[i].End() <= c.addr || c.End() <= fl[i].addr
    ensures Coalesce(fl, k, b)[j].End() <= c.addr || c.End() <= Coalesce(fl, k, b)[j].addr
  {
    CoalesceForm(fl, k, b);
    MergedApart(fl, k, b, c);
    hide Coalesce, Ordered, Fits, Lo, Hi, Merged;
    SpliceAt(fl, Lo(fl, k, b), Hi(fl, k, b), Merged(fl, k, b), j);
  }

  lemma SpliceAt(fl: seq<Blk>, lo: nat, hi: nat, m: Blk, j: nat)
    requires lo <= hi <= |fl| && j < |fl[..lo] + [m] + fl[hi..]|
    ensures var x := (fl[..lo] + [m] + fl[hi..])[j]; x == m || exists i :: 0 <= i < |fl| && x == fl[i]
  {
  }

  // The block that malloc cuts from free block i.
  function Cut(fl: seq<Blk>, i: nat, n: nat): Blk
    requires i < |fl| && n <= fl[i].size
  {
    Blk(fl[i].End() - n, n)
  }

  lemma InFreeTake(fl: seq<Blk>, i: nat, n: nat, x: nat)
    requires Ordered(fl) && i < |fl| && 0 < n <= fl[i].size
    ensures InFree(fl, x) <==> InFree(Take(fl, i, n), x) || Cut(fl, i, n).Has(x)
  {
    var f := Take(fl, i, n);
    if j: nat :| j < |fl| && fl[j].Has(x) {
      if !Cut(fl, i, n).Has(x) {
        var m := if fl[i].size == n && j > i then j - 1 else j;
        assert f[m].Has(x);
      }
    }
    if j: nat :| j < |f| && f[j].Has(x) {
      assert fl[if fl[i].size == n && j >= i then j + 1 else j].Has(x);
    }
    assert Cut(fl, i, n).Has(x) ==> fl[i].Has(x);
  }

  lemma TakeConserves(arena: set<nat>, fl: seq<Blk>, live: Live, i: nat, n: nat)
    requires Ordered(fl) && Separate(fl, live) && Conserved(arena, fl, live) && i < |fl| && 0 < n <= fl[i].size
    ensures var a := Cut(fl, i, n).addr;
      a !in live && Separate(Take(fl, i, n), live[a := n]) && Conserved(arena, Take(fl, i, n), live[a := n])
  {
    var a, f := Cut(fl, i, n).addr, Take(fl, i, n);
    assert a !in live;
    var live' := live[a := n];
    assert live' - {a} == live;
    forall x: nat
      ensures x in arena <==> InFree(f, x) || InLive(live', x)
    {
      InFreeTake(fl, i, n, x);
      InLiveSplit(live', a, x);
    }
    forall c, j | c in live' && 0 <= j < |f|
      ensures f[j].End() <= c || c + live'[c] <= f[j].addr
    {
      var m := if fl[i].size == n && j >= i then j + 1 else j;
      assert f[j] == if m == i then Blk(fl[i].addr, fl[i].size - n) else fl[m];
      if c != a {
        assert fl[m].End() <= c || c + live[c] <= fl[m].addr;
      }
    }
  }

  // ---------- the scan of malloc ----------

  // The position of the c-th node after position s, counting from 0.
  function Scan(fl: seq<Blk>, s: nat, c: nat): (k: nat)
    requires s <= |fl| && c <= |fl|
    ensures k <= |fl|
  {
    if s + 1 + c <= |fl| then s + 1 + c else s + c - |fl|
  }

  // The first c nodes after s are too small.
  ghost predicate TooSmall(fl: seq<Blk>, s: nat, c: nat, n: nat) {
    s <= |fl| && c <= |fl| + 1 && forall d: nat | d < c :: NodeSize(fl, Scan(fl, s, d)) < n
  }

  // A full circle of small nodes leaves no block of n units.
  lemma FullCircle(fl: seq<Blk>, s: nat, n: nat)
    requires TooSmall(fl, s, |fl| + 1, n)
    ensures forall k | 0 <= k < |fl| :: fl[k].size < n
  {
    forall k | 0 <= k < |fl|
      ensures fl[k].size < n
    {
      var d := if k + 1 > s then k - s else |fl| + k + 1 - s;
      assert Scan(fl, s, d) == k + 1;
    }
  }

  // Coalescing never makes a block smaller than the one freed.
  lemma CoalesceBig(fl: seq<Blk>, k: nat, b: Blk)
    requires k <= |fl|
    ensures exists j :: 0 <= j < |Coalesce(fl, k, b)| && Coalesce(fl, k, b)[j].size >= b.size
  {
    CoalesceForm(fl, k, b);
    assert Coalesce(fl, k, b)[Lo(fl, k, b)] == Merged(fl, k, b);
  }

  // The predecessor of a freed block stays on the ring.
  lemma CoalesceKeeps(fl: seq<Blk>, k: nat, b: Blk)
    requires k <= |fl|
    ensures k <= |Coalesce(fl, k, b)| && Node(Coalesce(fl, k, b), k) == Node(fl, k)
  {
    CoalesceForm(fl, k, b);
  }

  lemma GapFacts(fl: seq<Blk>, live: Live, a: nat)
    requires Ordered(fl) && Separate(fl, live) && a in live
    ensures BASE < a && forall k | 0 <= k < |fl| :: fl[k].addr != a
    ensures Node(fl, Pos(fl, a)) !in live
  {
  }

  lemma NodesBelow(mem: map<nat, Header>, fl: seq<Blk>, brk: nat)
    requires Ordered(fl) && BASE < brk && forall k | 0 <= k < |fl| :: fl[k].End() <= brk
    ensures forall k: nat | k <= |fl| :: Node(fl, k) < brk
  {
  }

  ghost function UnitsOf(b: Blk): set<nat> {
    set x: nat | x < b.End() && b.Has(x)
  }

  // Fresh memory above brk enters as an allocated block.
  lemma GrowConserves(arena: set<nat>, fl: seq<Blk>, live: Live, b: Blk, brk: nat)
    requires Ordered(fl) && Separate(fl, live) && Conserved(arena, fl, live)
    requires (forall x | x in arena :: x < brk) && BASE < brk <= b.addr && 0 < b.size
    ensures b.addr !in live && Separate(fl, live[b.addr := b.size])
    ensures Conserved(arena + UnitsOf(b), fl, live[b.addr := b.size])
    ensures forall k | 0 <= k < |fl| :: fl[k].End() <= brk
    ensures forall a | a in live :: a + live[a] <= brk
    ensures forall x | x in UnitsOf(b) :: x < b.End()
  {
    forall k | 0 <= k < |fl|
      ensures fl[k].End() <= brk
    {
      assert fl[k].Has(fl[k].End() - 1) && InFree(fl, fl[k].End() - 1);
    }
    forall a | a in live
      ensures a + live[a] <= brk
    {
      assert Blk(a, live[a]).Has(a + live[a] - 1) && InLive(live, a + live[a] - 1);
    }
    var live' := live[b.addr := b.size];
    assert b.addr !in live;
    assert live' - {b.addr} == live;
    forall x: nat
      ensures x in arena + UnitsOf(b) <==> InFree(fl, x) || InLive(live', x)
    {
      InLiveSplit(live', b.addr, x);
    }
  }

  ghost predicate OnRing(freep: nat, fl: seq<Blk>, k: nat) {
    k <= |fl| && freep == Node(fl, k)
  }

  // malloc's choice: the first large enough block after freep on the ring, cut
  // at its end.
  ghost predicate FitAt(fl: seq<Blk>, s: nat, c: nat, n: nat, freep': nat, fl': seq<Blk>, a: nat) {
    && s <= |fl| && c <= |fl| && TooSmall(fl, s, c, n)
    && var j := Scan(fl, s, c);
      && 1 <= j && n <= fl[j - 1].size && freep' == Node(fl, j - 1)
      && fl' == Take(fl, j - 1, n) && a == Cut(fl, j - 1, n).addr
  }

  // From freep and the free blocks fl to freep', the node before the block taken,
  // and fl', with the new block at a.
  ghost predicate NextFit(freep: nat, fl: seq<Blk>, n: nat, freep': nat, fl': seq<Blk>, a: nat) {
    exists s: nat, c: nat :: OnRing(freep, fl, s) && FitAt(fl, s, c, n, freep', fl', a)
  }

  // What morecore asks sbrk for, and the free blocks with it.
  function CoreBlk(at: nat, nu: nat): Blk { Blk(at, if nu < MINCORE then MINCORE else nu) }

  ghost function WithCore(fl: seq<Blk>, at: nat, nu: nat): seq<Blk>
    requires Pos(fl, at) <= |fl|
  {
    Coalesce(fl, Pos(fl, at), CoreBlk(at, nu))
  }

  // The scan is back at position s exactly after |fl| steps.
  lemma LastScan(fl: seq<Blk>, s: nat, c: nat)
    requires Ordered(fl) && s <= |fl| && c <= |fl|
    ensures Node(fl, Scan(fl, s, c)) == Node(fl, s) <==> c == |fl|
    ensures c < |fl| ==> Scan(fl, s, c + 1) == if Scan(fl, s, c) == |fl| then 0 else Scan(fl, s, c) + 1
    ensures Scan(fl, s, 0) == if s == |fl| then 0 else s + 1
    ensures Scan(fl, s, c) >= 1 ==> (if c == 0 then s else Scan(fl, s, c - 1)) == Scan(fl, s, c) - 1
  {
  }

  lemma NoneSmall(fl: seq<Blk>, s: nat, n: nat)
    requires s <= |fl|
    ensures TooSmall(fl, s, 0, n)
  {
  }

  lemma OneMore(fl: seq<Blk>, s: nat, c: nat, n: nat)
    requires s <= |fl| && c <= |fl| && TooSmall(fl, s, c, n) && NodeSize(fl, Scan(fl, s, c)) < n
    ensures TooSmall(fl, s, c + 1, n)
  {
  }

  lemma FitFound(fl: seq<Blk>, s: nat, c: nat, n: nat, freep: nat)
    requires s <= |fl| && c <= |fl| && TooSmall(fl, s, c, n) && 0 < n <= NodeSize(fl, Scan(fl, s, c))
    requires OnRing(freep, fl, s)
    ensures var j := Scan(fl, s, c);
      1 <= j && NextFit(freep, fl, n, Node(fl, j - 1), Take(fl, j - 1, n), Cut(fl, j - 1, n).addr)
  {
    var j := Scan(fl, s, c);
    assert FitAt(fl, s, c, n, Node(fl, j - 1), Take(fl, j - 1, n), Cut(fl, j - 1, n).addr);
  }

  // After morecore found nothing large enough and got n units or more at address at.
  ghost predicate Refilled(fl0: seq<Blk>, arena0: set<nat>, fl: seq<Blk>, arena: set<nat>, freep: nat, at: nat,
                           n: nat) {
    && (forall k | 0 <= k < |fl0| :: fl0[k].size < n) && (exists k :: 0 <= k < |fl| && fl[k].size >= n)
    && fl == WithCore(fl0, at, n) && freep == Node(fl0, Pos(fl0, at)) && arena == arena0 + UnitsOf(CoreBlk(at, n))
  }

  lemma RefilledBy(fl0: seq<Blk>, arena0: set<nat>, fl: seq<Blk>, arena: set<nat>, freep: nat, at: nat, n: nat)
    requires (forall k | 0 <= k < |fl0| :: fl0[k].size < n) && exists k :: 0 <= k < |fl| && fl[k].size >= n
    requires fl == WithCore(fl0, at, n) && freep == Node(fl0, Pos(fl0, at)) && arena == arena0 + UnitsOf(CoreBlk(at, n))
    ensures Refilled(fl0, arena0, fl, arena, freep, at, n)
  {
  }

  lemma RefilledIs(fl0: seq<Blk>, arena0: set<nat>, fl: seq<Blk>, arena: set<nat>, freep: nat, at: nat, n: nat)
    requires Refilled(fl0, arena0, fl, arena, freep, at, n)
    ensures forall k | 0 <= k < |fl0| :: fl0[k].size < n
    ensures fl == WithCore(fl0, at, n) && freep == Node(fl0, Pos(fl0, at)) && arena == arena0 + UnitsOf(CoreBlk(at, n))
  {
  }

  // Then the search succeeds before it is back at freep.
  lemma RefilledHas(fl0: seq<Blk>, arena0: set<nat>, fl: seq<Blk>, arena: set<nat>, freep: nat, at: nat, n: nat)
    requires Refilled(fl0, arena0, fl, arena, freep, at, n)
    ensures exists k :: 0 <= k < |fl| && fl[k].size >= n
  {
  }

  lemma TakeApart(fl: seq<Blk>, live: Live, i: nat, n: nat)
    requires Ordered(fl) && Separate(fl, live) && i < |fl| && 0 < n <= fl[i].size
    ensures forall k: nat | k <= |fl| :: Node(fl, k) !in live
    ensures Cut(fl, i, n).addr !in live
    ensures n < fl[i].size ==> forall k: nat | k <= |fl| :: Node(fl, k) != Cut(fl, i, n).addr
  {
  }

  lemma OnRingTake(fl: seq<Blk>, i: nat, n: nat)
    requires i < |fl| && n <= fl[i].size
    ensures OnRing(Node(fl, i), Take(fl, i, n), i)
  {
  }

  class Heap {
    var mem: map<nat, Header>       // headers, by address
    var freep: nat
    var brk: nat                    // every unit from sbrk lies below brk
    var asks: nat                   // calls of sbrk so far
    ghost var fl: seq<Blk>
    ghost var live: Live
    ghost var arena: set<nat>       // units obtained from sbrk

    ghost predicate Started()
      reads this
    {
      && Ordered(fl) && Linked(mem, fl) && (exists k: nat :: OnRing(freep, fl, k))
      && Separate(fl, live) && (forall a | a in live :: a in mem && mem[a].size == live[a])
      && Conserved(arena, fl, live)
      && (forall x | x in arena :: x < brk) && BASE < brk
    }

    ghost predicate Valid()
      reads this
    {
      if freep == NULL then fl == [] && live == map[] && arena == {} && BASE < brk && BASE in mem else Started()
    }

    constructor (brk: nat)
      requires BASE < brk
      ensures Valid() && live == map[] && arena == {} && fl == [] && asks == 0
    {
      this.brk := brk;
      mem, freep, asks := map[BASE := Header(NULL, 0)], NULL, 0;
      fl, live, arena := [], map[], {};
    }

    // The search loop of free: the ring node before the block at bp.
    method FindGap(bp: nat) returns (p: nat)
      requires Started() && forall k | 0 <= k < |fl| :: fl[k].addr != bp
      requires BASE < bp
      ensures p == Node(fl, Pos(fl, bp))
    {
      hide Conserved, Separate, Linked;
      ghost var j: nat :| OnRing(freep, fl, j);
      ghost var k := Pos(fl, bp);
      p := freep;
      LinkedAt(mem, fl, j);
      while !(bp > p && bp < mem[p].ptr)
        invariant j <= |fl| && p == Node(fl, j) && p in mem
        decreases if j <= k then k - j else |fl| + 1 - j + k
      {
        LinkedAt(mem, fl, j);
        if p >= mem[p].ptr && (bp > p || bp < mem[p].ptr) {
          break;
        }
        p := mem[p].ptr;
        j := if j == |fl| then 0 else j + 1;
      }
      LinkedAt(mem, fl, j);
    }

    // free of the block whose header is at ap - 1.
    method Free(ap: nat)
      requires Valid() && ap >= 1 && ap - 1 in live
      modifies this
      ensures Valid() && freep != NULL && live == old(live) - {ap - 1}
      ensures arena == old(arena) && brk == old(brk) && asks == old(asks)
      ensures fl == Coalesce(old(fl), Pos(old(fl), ap - 1), Blk(ap - 1, old(live)[ap - 1]))
      ensures freep == Node(old(fl), Pos(old(fl), ap - 1))
    {
      hide Conserved, Coalesce, FreeStores, Linked, Ordered, Separate, Fits;
      var bp := ap - 1;
      ghost var k, b := Pos(fl, bp), Blk(bp, live[bp]);
      LiveFits(fl, live, bp);
      GapFacts(fl, live, bp);
      var p := FindGap(bp);
      FreeLinked(mem, fl, k, b);
      CoalesceOrdered(fl, k, b);
      FreeConserves(arena, fl, live, bp);
      CoalesceKeeps(fl, k, b);
      StoreFree(p, bp);
      freep := p;
      fl := Coalesce(fl, k, b);
      live := live - {bp};
      assert OnRing(freep, fl, k);
    }

    // The header stores at the end of free.
    method StoreFree(p: nat, bp: nat)
      requires p in mem && bp in mem && mem[p].ptr in mem && p != bp
      modifies this`mem
      ensures mem == FreeStores(old(mem), p, bp)
      ensures forall a | a in old(mem) && a != p && a != bp :: a in mem && mem[a] == old(mem)[a]
    {
      var next := mem[p].ptr;
      if bp + mem[bp].size == next {
        mem := mem[bp := Header(mem[next].ptr, mem[bp].size + mem[next].size)];
      } else {
        mem := mem[bp := mem[bp].(ptr := next)];
      }
      if p + mem[p].size == bp {
        mem := mem[p := Header(mem[bp].ptr, mem[p].size + mem[bp].size)];
      } else {
        mem := mem[p := mem[p].(ptr := bp)];
      }
    }

    // morecore: at least MINCORE units more, freed into the list. grant is the
    // address that sbrk returns, above everything it returned before.
    method MoreCore(nu: nat, grant: Option<nat>) returns (p: nat)
      requires Valid() && freep != NULL && 0 < nu
      requires grant.Some? ==> brk <= grant.value
      modifies this
      ensures Valid() && freep != NULL && live == old(live) && asks == old(asks) + 1
      ensures grant.None? ==> p == NULL && fl == old(fl) && arena == old(arena) && freep == old(freep)
      ensures grant.Some? ==> p == freep && exists j :: 0 <= j < |fl| && fl[j].size >= nu
      ensures grant.Some? ==> arena == old(arena) + UnitsOf(CoreBlk(grant.value, nu))
      ensures grant.Some? ==> fl == WithCore(old(fl), grant.value, nu) && freep == Node(old(fl), Pos(old(fl), grant.value))
    {
      hide Conserved, Linked, Ordered, Separate, Coalesce, UnitsOf, Pos;
      asks := asks + 1;
      assert exists k: nat :: OnRing(freep, fl, k);
      var n := if nu < MINCORE then MINCORE else nu;
      if grant.None? {
        return NULL;
      }
      var hp := grant.value;
      Extend(hp, n);
      hide Started;
      CoalesceBig(fl, Pos(fl, hp), Blk(hp, n));
      Free(hp + 1);
      assert live == old(live);
      p := freep;
    }

    // The new units as one allocated block, ready to be freed.
    method Extend(hp: nat, n: nat)
      requires Started() && brk <= hp && 0 < n
      modifies this
      ensures Started() && freep == old(freep) && fl == old(fl) && asks == old(asks)
      ensures hp !in old(live) && live == old(live)[hp := n] && arena == old(arena) + UnitsOf(Blk(hp, n))
      ensures Pos(fl, hp) <= |fl|
    {
      hide Conserved, Linked, Ordered, Separate, UnitsOf, Pos;
      GrowConserves(arena, fl, live, Blk(hp, n), brk);
      NodesBelow(mem, fl, brk);
      LinkedFrame(mem, mem[hp := Header(if hp in mem then mem[hp].ptr else 0, n)], fl);
      mem := mem[hp := Header(if hp in mem then mem[hp].ptr else 0, n)];
      brk := hp + n;
      arena := arena + UnitsOf(Blk(hp, n));
      live := live[hp := n];
      assert Ordered(fl) && Linked(mem, fl) && Separate(fl, live) && Conserved(arena, fl, live);
      assert exists k: nat :: OnRing(freep, fl, k);
    }

    // malloc takes nunits from node j: the whole block, or its tail.
    method TakeBlock(p: nat, prevp: nat, nunits: nat, ghost j: nat) returns (ap: nat)
      requires Started() && 1 <= j <= |fl| && 0 < nunits <= NodeSize(fl, j)
      requires p == Node(fl, j) && prevp == Node(fl, j - 1)
      modifies this`mem, this`freep, this`fl, this`live
      ensures Started() && freep == prevp && freep != NULL
      ensures ap - 1 == Cut(old(fl), j - 1, nunits).addr && fl == Take(old(fl), j - 1, nunits)
      ensures ap - 1 !in old(live) && live == old(live)[ap - 1 := nunits]
    {
      hide Conserved, Separate, Linked, Ordered, Take, Cut;
      TakeOrdered(fl, j - 1, nunits);
      TakeConserves(arena, fl, live, j - 1, nunits);
      TakeApart(fl, live, j - 1, nunits);
      var q := StoreTake(p, prevp, nunits, j);
      freep := prevp;
      ghost var fl0 := fl;
      fl := Take(fl, j - 1, nunits);
      live := live[q := nunits];
      OnRingTake(fl0, j - 1, nunits);
      assert OnRing(freep, fl, j - 1);
      ap := q + 1;
    }

    // The header stores of TakeBlock.
    method StoreTake(p: nat, prevp: nat, nunits: nat, ghost j: nat) returns (q: nat)
      requires Linked(mem, fl) && Ordered(fl) && 1 <= j <= |fl| && 0 < nunits <= NodeSize(fl, j)
      requires p == Node(fl, j) && prevp == Node(fl, j - 1)
      modifies this`mem
      ensures q == Cut(fl, j - 1, nunits).addr && q in mem && mem[q].size == nunits
      ensures Linked(mem, Take(fl, j - 1, nunits))
      ensures forall a | a in old(mem) && a != q && a != p && a != prevp :: a in mem && mem[a] == old(mem)[a]
    {
      hide Linked, Ordered;
      LinkedAt(mem, fl, j);
      LinkedAt(mem, fl, j - 1);
      q := p;
      if mem[p].size == nunits {
        RemoveLinked(mem, fl, j - 1);
        mem := mem[prevp := mem[prevp].(ptr := mem[p].ptr)];
      } else {
        var junk := if p + mem[p].size - nunits in mem then mem[p + mem[p].size - nunits].ptr else NULL;
        ShrinkLinked(mem, fl, j - 1, nunits, junk);
        mem := mem[p := mem[p].(size := mem[p].size - nunits)];
        q := q + mem[q].size;
        mem := mem[q := Header(junk, nunits)];
      }
    }

    // malloc. grant is the answer of sbrk, should malloc ask; it asks at most
    // once. ap is NULL, or the address behind the header of the new block.
    method Malloc(nbytes: nat, grant: Option<nat>) returns (ap: nat)
      requires Valid() && nbytes < TWO32
      requires grant.Some? ==> brk <= grant.value
      requires HEADER * Units(nbytes) < TWO32 / 2     // else sbrk gets a negative argument
      modifies this
      ensures Valid() && asks <= old(asks) + 1 && old(arena) <= arena
      ensures ap == NULL ==> grant.None? && live == old(live) && fl == old(fl) && arena == old(arena)
      ensures ap == NULL ==> forall k | 0 <= k < |fl| :: fl[k].size < Units(nbytes)
      ensures ap == NULL || asks != old(asks) ==> NoRoom(old(fl), nbytes)
      ensures ap == NULL ==> freep == if old(freep) == NULL then BASE else old(freep)
      ensures ap != NULL ==> ap - 1 !in old(live) && live == old(live)[ap - 1 := Units(nbytes)]
      ensures ap != NULL && nbytes + HEADER - 1 < TWO32 ==> HEADER * (live[ap - 1] - 1) >= nbytes
      ensures ap != NULL && live[ap - 1] > 1 ==> HEADER * (live[ap - 1] - 2) < nbytes
      ensures (exists k :: 0 <= k < |old(fl)| && old(fl)[k].size >= Units(nbytes)) ==> ap != NULL && asks == old(asks)
      ensures ap != NULL && asks == old(asks) ==>
        arena == old(arena) && NextFit(old(freep), old(fl), Units(nbytes), freep, fl, ap - 1)
      ensures ap != NULL && asks != old(asks) ==>
        && grant.Some? && arena == old(arena) + UnitsOf(CoreBlk(grant.value, Units(nbytes)))
        && NextFit(Node(old(fl), Pos(old(fl), grant.value)), WithCore(old(fl), grant.value, Units(nbytes)), Units(nbytes),
                   freep, fl, ap - 1)
    {
      hide Conserved, Separate, Linked, Ordered, TooSmall, Scan, Take, Cut, FitAt, NextFit, UnitsOf, Units, Node;
      hide CoreBlk, WithCore, NoRoom, Pos, Refilled;
      var nunits := Units(nbytes);
      ghost var was, had := fl, arena;
      UnitsExact(nbytes, nunits);
      UnitsExact(nbytes, nunits - 1);
      Start();
      ghost var s: nat :| OnRing(freep, fl, s);
      ghost var c := 0;
      var asked := false;
      var prevp := freep;
      LinkedAt(mem, fl, s);
      NoneSmall(fl, s, nunits);
      LastScan(fl, s, 0);
      var p := mem[prevp].ptr;
      while true
        invariant Started() && freep != NULL && live == old(live) && had <= arena
        invariant c <= |fl| && OnRing(freep, fl, s) && TooSmall(fl, s, c, nunits)
        invariant p == Node(fl, Scan(fl, s, c))
        invariant prevp == Node(fl, if c == 0 then s else Scan(fl, s, c - 1))
        invariant !asked ==> asks == old(asks) && fl == was && arena == had && (grant.Some? ==> brk <= grant.value)
        invariant !asked ==> freep == old(freep) || fl == []
        invariant asked ==> asks == old(asks) + 1 && grant.Some?
        invariant asked ==> Refilled(was, had, fl, arena, freep, grant.value, nunits)
        invariant !asked ==> freep == if old(freep) == NULL then BASE else old(freep)
        decreases if asked then 0 else 1, |fl| - c
      {
        ghost var j := Scan(fl, s, c);
        LastScan(fl, s, c);
        LinkedAt(mem, fl, j);
        if mem[p].size >= nunits {
          ghost var fl0, freep0 := fl, freep;
          if asked {
            RefilledIs(was, had, fl0, arena, freep0, grant.value, nunits);
            SmallNoRoom(was, nbytes);
          }
          ap := TakeBlock(p, prevp, nunits, j);
          FitFound(fl0, s, c, nunits, freep0);
          return;
        }
        OneMore(fl, s, c, nunits);
        if p == freep {
          FullCircle(fl, s, nunits);
          if asked {
            RefilledHas(was, had, fl, arena, freep, grant.value, nunits);
            assert false;
          }
          p := MoreCore(nunits, grant);
          if p == NULL {
            SmallNoRoom(fl, nbytes);
            return NULL;
          }
          asked := true;
          RefilledBy(was, had, fl, arena, freep, grant.value, nunits);
          s :| OnRing(freep, fl, s);
          c := 0;
          LinkedAt(mem, fl, s);
          NoneSmall(fl, s, nunits);
          LastScan(fl, s, 0);
        } else {
          c := c + 1;
        }
        prevp := p;
        p := mem[p].ptr;
      }
    }

    // malloc, first call: the ring is base alone.
    method Start()
      requires Valid()
      modifies this`mem, this`freep
      ensures Started() && freep != NULL && (freep == old(freep) || fl == [])
      ensures freep == if old(freep) == NULL then BASE else old(freep)
    {
      if freep == NULL {
        mem := mem[BASE := Header(BASE, 0)];
        freep := BASE;
        assert NodeOk(mem, fl, 0) && OnRing(freep, fl, 0);
        assert forall x: nat :: !InFree(fl, x) && !InLive(live, x);
      } else {
        ghost var k: nat :| OnRing(freep, fl, k);
        assert Node(fl, k) != NULL;
      }
    }
  }
}
