// Physical frames, the kalloc free list, and two-level page tables as a flat
// map from page numbers to entries.
module PageTables {
  import opened Bytes

  type Page = p: seq<Word32> | |p| == 1024 witness seq(1024, _ => 0)

  const NENTRIES: nat := 1024          // NPDENTRIES and NPTENTRIES
  const NPAGES: nat := 0x10_0000       // pages of a 32-bit address space
  const UPAGES: nat := 0x8_0000        // pages below KERNBASE
  const PTE_P: nat := 1
  const PTE_W: nat := 2
  const PTE_U: nat := 4

  type Mem = map<nat, Page>            // contents of each physical frame

  // What a frame outside the free list is used for.
  datatype Role =
    | Dir                              // a page directory
    | Tab(pd: nat, i: nat)             // the page table of entry i of directory pd
    | User(pd: nat, vpn: nat)          // the page at vpn of the address space of pd
    | Loose                            // allocated, not yet mapped, or used elsewhere

  type Owners = map<nat, Role>

  predicate Present(w: Word32) { w % 2 == 1 }

  function Frame(w: Word32): nat { w / 0x1000 }

  function Flags(w: Word32): nat { w % 0x1000 }

  // pa | flags, for a frame number and flag bits.
  function Entry(f: nat, flags: nat): Word32
    requires f < NPAGES && flags < 0x1000
  {
    0x1000 * f + flags
  }

  function ZeroPage(): Page { seq(1024, _ => 0) }

  function Load(mem: Mem, f: nat, i: nat): Word32
    requires i < NENTRIES
  {
    if f in mem then mem[f][i] else 0
  }

  // The page directory entry, and the entry for page vpn (0 if there is no
  // page table for it).
  function Pde(mem: Mem, pd: nat, i: nat): Word32
    requires i < NENTRIES
  {
    Load(mem, pd, i)
  }

  function Pte(mem: Mem, pd: nat, vpn: nat): Word32
    requires vpn < NPAGES
  {
    var e := Pde(mem, pd, vpn / NENTRIES);
    if Present(e) then Load(mem, Frame(e), vpn % NENTRIES) else 0
  }

  // The flat map: the entry of a present page, 0 for an absent one.
  function Flat(mem: Mem, pd: nat, vpn: nat): (w: Word32)
    requires vpn < NPAGES
    ensures w == 0 <==> !Present(Pte(mem, pd, vpn))
  {
    var w := Pte(mem, pd, vpn);
    if Present(w) then w else 0
  }

  ghost predicate IsDir(own: Owners, pd: nat) { pd in own && own[pd] == Dir }

  // Every page table and user page of every directory is a frame with that one
  // role.
  ghost predicate Referenced(mem: Mem, own: Owners) {
    && (forall pd: nat, i: nat {:trigger Pde(mem, pd, i)} | IsDir(own, pd) && i < NENTRIES && Present(Pde(mem, pd, i)) ::
          Frame(Pde(mem, pd, i)) in own && own[Frame(Pde(mem, pd, i))] == Tab(pd, i))
    && (forall pd: nat, vpn: nat {:trigger Pte(mem, pd, vpn)} | IsDir(own, pd) && vpn < UPAGES && Present(Pte(mem, pd, vpn)) ::
          Frame(Pte(mem, pd, vpn)) in own && own[Frame(Pte(mem, pd, vpn))] == User(pd, vpn))
  }

  ghost predicate RoleHeld(mem: Mem, own: Owners, f: nat)
    requires f in own
  {
    match own[f]
    case Tab(pd, i) => IsDir(own, pd) && i < NENTRIES && Present(Pde(mem, pd, i)) && Frame(Pde(mem, pd, i)) == f
    case User(pd, vpn) => IsDir(own, pd) && vpn < UPAGES && Present(Pte(mem, pd, vpn)) && Frame(Pte(mem, pd, vpn)) == f
    case _ => true
  }

  // ---------- the free list ----------

  // The word that the free list stores for frame f: P2V of its address.
  function Link(f: nat): Word32
    requires f < UPAGES
  {
    0x8000_0000 + 0x1000 * f
  }

  // The chain of run.next pointers from head visits exactly the frames of free.
  ghost predicate Chain(mem: Mem, head: Word32, free: seq<nat>) {
    && (forall k | 0 <= k < |free| :: free[k] < UPAGES && free[k] in mem)
    && (if free == [] then head == 0 else head == Link(free[0]))
    && forall k: nat | k < |free| :: NextFree(mem, free, k)
  }

  ghost predicate NextFree(mem: Mem, free: seq<nat>, k: nat)
    requires k < |free| && forall j | 0 <= j < |free| :: free[j] < UPAGES && free[j] in mem
  {
    mem[free[k]][0] == if k + 1 < |free| then Link(free[k + 1]) else 0
  }

  // The free list is a proper list of frames in no other use.
  ghost predicate FreeInv(mem: Mem, head: Word32, free: seq<nat>, own: Owners) {
    && Chain(mem, head, free)
    && (forall j, k | 0 <= j < k < |free| :: free[j] != free[k])
    && (forall k | 0 <= k < |free| :: 0 < free[k] && free[k] !in own)
  }

  // Every frame in use is used for exactly its role.
  ghost predicate OwnInv(mem: Mem, own: Owners) {
    && (forall f | f in own :: 0 < f < UPAGES && f in mem && RoleHeld(mem, own, f))
    && Referenced(mem, own)
  }

  // All frames that are free or in use.
  ghost function Frames(free: seq<nat>, own: Owners): set<nat> {
    (set k | 0 <= k < |free| :: free[k]) + own.Keys
  }

  // ---------- storing into frames ----------

  // Contents of a frame that is no directory and no page table do not matter.
  lemma DataFrame(mem: Mem, own: Owners, f: nat, page: Page, pd: nat, vpn: nat)
    requires Referenced(mem, own) && IsDir(own, pd) && vpn < NPAGES
    requires f in own ==> own[f].User? || own[f].Loose?
    ensures Pde(mem[f := page], pd, vpn / NENTRIES) == Pde(mem, pd, vpn / NENTRIES)
    ensures Pte(mem[f := page], pd, vpn) == Pte(mem, pd, vpn)
  {
    var e := Pde(mem, pd, vpn / NENTRIES);
  }

  lemma PdeAsPte(i: nat)
    requires i < NENTRIES
    ensures NENTRIES * i < NPAGES && NENTRIES * i / NENTRIES == i
  {
  }

  // Equal entries keep the roles.
  lemma OwnSame(mem: Mem, mem': Mem, own: Owners)
    requires OwnInv(mem, own) && forall f | f in own :: f in mem'
    requires forall pd: nat, i: nat | IsDir(own, pd) && i < NENTRIES :: Pde(mem', pd, i) == Pde(mem, pd, i)
    requires forall pd: nat, vpn: nat | IsDir(own, pd) && vpn < NPAGES :: Pte(mem', pd, vpn) == Pte(mem, pd, vpn)
    ensures OwnInv(mem', own)
  {
    hide Pde, Pte;
    forall f | f in own
      ensures RoleHeld(mem', own, f)
    {
      assert RoleHeld(mem, own, f);
    }
  }

  lemma DataKeeps(mem: Mem, own: Owners, f: nat, page: Page)
    requires OwnInv(mem, own) && (f in own ==> own[f].User? || own[f].Loose?)
    ensures OwnInv(mem[f := page], own)
    ensures forall pd: nat, vpn: nat | IsDir(own, pd) && vpn < NPAGES :: Pte(mem[f := page], pd, vpn) == Pte(mem, pd, vpn)
    ensures forall pd: nat, i: nat | IsDir(own, pd) && i < NENTRIES :: Pde(mem[f := page], pd, i) == Pde(mem, pd, i)
  {
    forall pd: nat, vpn: nat | IsDir(own, pd) && vpn < NPAGES
      ensures Pte(mem[f := page], pd, vpn) == Pte(mem, pd, vpn)
    {
      DataFrame(mem, own, f, page, pd, vpn);
    }
    forall pd: nat, i: nat | IsDir(own, pd) && i < NENTRIES
      ensures Pde(mem[f := page], pd, i) == Pde(mem, pd, i)
    {
      PdeAsPte(i);
      DataFrame(mem, own, f, page, pd, NENTRIES * i);
    }
    OwnSame(mem, mem[f := page], own);
  }

  // ---------- walkpgdir: a new page table ----------

  function WithTable(mem: Mem, pd: nat, i: nat, t: nat): Mem
    requires pd in mem && i < NENTRIES && t < NPAGES
  {
    var m := mem[t := ZeroPage()];
    m[pd := m[pd][i := Entry(t, PTE_P + PTE_W + PTE_U)]]
  }

  lemma EntryFields(f: nat, flags: nat)
    requires f < NPAGES && flags < 0x1000
    ensures Frame(Entry(f, flags)) == f && Flags(Entry(f, flags)) == flags
    ensures Present(Entry(f, flags)) <==> flags % 2 == 1
  {
  }

  lemma WithTableEntries(mem: Mem, own: Owners, pd: nat, i: nat, t: nat)
    requires OwnInv(mem, own) && IsDir(own, pd) && i < NENTRIES && !Present(Pde(mem, pd, i))
    requires t in own && own[t].Loose?
    ensures var m := WithTable(mem, pd, i, t);
      && (forall d: nat, j: nat | IsDir(own, d) && j < NENTRIES :: Pde(m, d, j) ==
           if d == pd && j == i then Entry(t, PTE_P + PTE_W + PTE_U) else Pde(mem, d, j))
      && (forall d: nat, vpn: nat | IsDir(own, d) && vpn < NPAGES :: Pte(m, d, vpn) == Pte(mem, d, vpn))
  {
    var m := WithTable(mem, pd, i, t);
    EntryFields(t, PTE_P + PTE_W + PTE_U);
    forall d: nat, j: nat | IsDir(own, d) && j < NENTRIES
      ensures Pde(m, d, j) == if d == pd && j == i then Entry(t, PTE_P + PTE_W + PTE_U) else Pde(mem, d, j)
    {
    }
    forall d: nat, vpn: nat | IsDir(own, d) && vpn < NPAGES
      ensures Pte(m, d, vpn) == Pte(mem, d, vpn)
    {
      var e := Pde(mem, d, vpn / NENTRIES);
      assert Pde(m, d, vpn / NENTRIES) == if d == pd && vpn / NENTRIES == i then Entry(t, PTE_P + PTE_W + PTE_U) else e;
      if Present(e) {
        assert own[Frame(e)] == Tab(d, vpn / NENTRIES);
      }
    }
  }

  lemma WithTableKeeps(mem: Mem, own: Owners, pd: nat, i: nat, t: nat)
    requires OwnInv(mem, own) && IsDir(own, pd) && i < NENTRIES && !Present(Pde(mem, pd, i))
    requires t in own && own[t].Loose?
    ensures OwnInv(WithTable(mem, pd, i, t), own[t := Tab(pd, i)])
  {
    WithTableEntries(mem, own, pd, i, t);
    EntryFields(t, PTE_P + PTE_W + PTE_U);
    var m, own' := WithTable(mem, pd, i, t), own[t := Tab(pd, i)];
    hide Pde, Pte, WithTable, Entry, Frame, Present;
    forall f | f in own'
      ensures RoleHeld(m, own', f)
    {
      assert RoleHeld(mem, own, f);
    }
    assert forall d: nat :: IsDir(own', d) <==> IsDir(own, d);
    NoLooseRef(mem, own, t);
  }

  // No entry refers to a loose frame.
  lemma NoLooseRef(mem: Mem, own: Owners, f: nat)
    requires OwnInv(mem, own) && f in own && own[f].Loose?
    ensures forall pd: nat, i: nat | IsDir(own, pd) && i < NENTRIES && Present(Pde(mem, pd, i)) :: Frame(Pde(mem, pd, i)) != f
    ensures forall pd: nat, vpn: nat | IsDir(own, pd) && vpn < UPAGES && Present(Pte(mem, pd, vpn)) :: Frame(Pte(mem, pd, vpn)) != f
  {
  }

  // ---------- storing an entry ----------

  function WithPte(mem: Mem, pd: nat, vpn: nat, w: Word32): Mem
    requires vpn < NPAGES && Frame(Pde(mem, pd, vpn / NENTRIES)) in mem
  {
    var t := Frame(Pde(mem, pd, vpn / NENTRIES));
    mem[t := mem[t][vpn % NENTRIES := w]]
  }

  lemma WithPteEntries(mem: Mem, own: Owners, pd: nat, vpn: nat, w: Word32)
    requires OwnInv(mem, own) && IsDir(own, pd) && vpn < NPAGES && Present(Pde(mem, pd, vpn / NENTRIES))
    ensures Frame(Pde(mem, pd, vpn / NENTRIES)) in own && Frame(Pde(mem, pd, vpn / NENTRIES)) in mem
    ensures var m := WithPte(mem, pd, vpn, w);
      && (forall d: nat, j: nat | IsDir(own, d) && j < NENTRIES :: Pde(m, d, j) == Pde(mem, d, j))
      && (forall d: nat, v: nat | IsDir(own, d) && v < NPAGES :: Pte(m, d, v) == if d == pd && v == vpn then w else Pte(mem, d, v))
  {
    var i := vpn / NENTRIES;
    var t := Frame(Pde(mem, pd, i));
    assert own[t] == Tab(pd, i);
    var m := WithPte(mem, pd, vpn, w);
    forall d: nat, v: nat | IsDir(own, d) && v < NPAGES
      ensures Pte(m, d, v) == if d == pd && v == vpn then w else Pte(mem, d, v)
    {
      var e := Pde(mem, d, v / NENTRIES);
      assert Pde(m, d, v / NENTRIES) == e;
      if Present(e) && Frame(e) == t {
        assert own[t] == Tab(d, v / NENTRIES);
        assert v == NENTRIES * (v / NENTRIES) + v % NENTRIES && vpn == NENTRIES * i + vpn % NENTRIES;
      }
    }
  }

  // Mapping the loose frame f at user page vpn.
  lemma MapUserKeeps(mem: Mem, own: Owners, pd: nat, vpn: nat, f: nat, flags: nat)
    requires OwnInv(mem, own) && IsDir(own, pd) && vpn < UPAGES && Present(Pde(mem, pd, vpn / NENTRIES))
    requires !Present(Pte(mem, pd, vpn)) && f in own && own[f].Loose? && flags < 0x1000 && flags % 2 == 1
    ensures Frame(Pde(mem, pd, vpn / NENTRIES)) in mem
    ensures OwnInv(WithPte(mem, pd, vpn, Entry(f, flags)), own[f := User(pd, vpn)])
  {
    WithPteEntries(mem, own, pd, vpn, Entry(f, flags));
    EntryFields(f, flags);
    NoLooseRef(mem, own, f);
    var m, own' := WithPte(mem, pd, vpn, Entry(f, flags)), own[f := User(pd, vpn)];
    hide Pde, Pte, WithPte, Entry, Frame, Present;
    forall g | g in own'
      ensures RoleHeld(m, own', g)
    {
      assert RoleHeld(mem, own, g);
    }
    assert forall d: nat :: IsDir(own', d) <==> IsDir(own, d);
  }

  // Kernel mappings own no frame.
  lemma MapKernelKeeps(mem: Mem, own: Owners, pd: nat, vpn: nat, w: Word32)
    requires OwnInv(mem, own) && IsDir(own, pd) && UPAGES <= vpn < NPAGES && Present(Pde(mem, pd, vpn / NENTRIES))
    ensures Frame(Pde(mem, pd, vpn / NENTRIES)) in mem
    ensures OwnInv(WithPte(mem, pd, vpn, w), own)
  {
    WithPteEntries(mem, own, pd, vpn, w);
    var m := WithPte(mem, pd, vpn, w);
    hide Pde, Pte, WithPte, Frame, Present;
    forall g | g in own
      ensures RoleHeld(m, own, g)
    {
      assert RoleHeld(mem, own, g);
    }
  }

  // kfree of a mapped user frame, then *pte = 0.
  lemma UnmapKeeps(mem: Mem, own: Owners, pd: nat, vpn: nat, page: Page)
    requires OwnInv(mem, own) && IsDir(own, pd) && vpn < UPAGES && Present(Pte(mem, pd, vpn))
    ensures var f := Frame(Pte(mem, pd, vpn));
      && f in own && own[f] == User(pd, vpn)
      && Frame(Pde(mem[f := page], pd, vpn / NENTRIES)) in mem[f := page]
      && var m := WithPte(mem[f := page], pd, vpn, 0);
      && OwnInv(m, own - {f})
      && (forall d: nat, v: nat | IsDir(own, d) && v < NPAGES :: Pte(m, d, v) == if d == pd && v == vpn then 0 else Pte(mem, d, v))
      && (forall d: nat, j: nat | IsDir(own, d) && j < NENTRIES :: Pde(m, d, j) == Pde(mem, d, j))
  {
    var f := Frame(Pte(mem, pd, vpn));
    var m0 := mem[f := page];
    assert own[f] == User(pd, vpn);
    DataKeeps(mem, own, f, page);
    assert Pte(m0, pd, vpn) == Pte(mem, pd, vpn);
    WithPteEntries(m0, own, pd, vpn, 0);
    var m, own' := WithPte(m0, pd, vpn, 0), own - {f};
    hide Pde, Pte, WithPte, Frame, Present;
    forall g | g in own'
      ensures RoleHeld(m, own', g)
    {
      assert RoleHeld(m0, own, g);
    }
    assert forall d: nat :: IsDir(own', d) <==> IsDir(own, d);
    OnlyOne(m0, own, pd, vpn, f);
  }

  // A user frame is referred to by its own entry alone.
  lemma OnlyOne(mem: Mem, own: Owners, pd: nat, vpn: nat, f: nat)
    requires OwnInv(mem, own) && f in own && own[f] == User(pd, vpn)
    ensures forall d: nat, i: nat | IsDir(own, d) && i < NENTRIES && Present(Pde(mem, d, i)) :: Frame(Pde(mem, d, i)) != f
    ensures forall d: nat, v: nat | IsDir(own, d) && v < UPAGES && Present(Pte(mem, d, v)) && Frame(Pte(mem, d, v)) == f ::
      d == pd && v == vpn
  {
  }

  // ---------- the free list under stores ----------

  // Stores into frames in use do not disturb the free list.
  lemma ChainFrame(mem: Mem, mem': Mem, head: Word32, free: seq<nat>)
    requires Chain(mem, head, free)
    requires forall k | 0 <= k < |free| && free[k] in mem :: free[k] in mem' && mem'[free[k]] == mem[free[k]]
    ensures Chain(mem', head, free)
  {
    forall k: nat | k < |free|
      ensures NextFree(mem', free, k)
    {
      assert NextFree(mem, free, k);
    }
  }

  // memset(v, 1, PGSIZE), then r->next = freelist.
  function JunkPage(link: Word32): Page {
    seq(1024, i => if i == 0 then link else 0x0101_0101)
  }

  lemma PushKeeps(mem: Mem, head: Word32, free: seq<nat>, own: Owners, f: nat)
    requires FreeInv(mem, head, free, own) && 0 < f < UPAGES && f !in own
    requires forall k | 0 <= k < |free| :: free[k] != f
    ensures FreeInv(mem[f := JunkPage(head)], Link(f), [f] + free, own)
  {
    var m, l := mem[f := JunkPage(head)], [f] + free;
    forall k: nat | k < |l|
      ensures NextFree(m, l, k)
    {
      if k > 0 { assert NextFree(mem, free, k - 1); }
    }
  }

  lemma PopKeeps(mem: Mem, head: Word32, free: seq<nat>, own: Owners)
    requires FreeInv(mem, head, free, own) && free != []
    ensures FreeInv(mem, mem[free[0]][0], free[1..], own[free[0] := Loose])
  {
    var rest := free[1..];
    assert NextFree(mem, free, 0);
    forall k: nat | k < |rest|
      ensures NextFree(mem, rest, k)
    {
      assert NextFree(mem, free, k + 1);
    }
  }

  lemma FramesPush(free: seq<nat>, own: Owners, f: nat)
    requires f in own
    ensures Frames([f] + free, own - {f}) == Frames(free, own)
  {
    assert ([f] + free)[0] == f;
    forall x | x in Frames(free, own)
      ensures x in Frames([f] + free, own - {f})
    {
      if k :| 0 <= k < |free| && free[k] == x { assert ([f] + free)[k + 1] == x; }
    }
  }

  lemma FramesPop(free: seq<nat>, own: Owners)
    requires free != []
    ensures Frames(free[1..], own[free[0] := Loose]) == Frames(free, own)
  {
    forall x | x in Frames(free, own)
      ensures x in Frames(free[1..], own[free[0] := Loose])
    {
      if k :| 0 <= k < |free| && free[k] == x {
        if k > 0 { assert free[1..][k - 1] == x; }
      }
    }
  }

  lemma FramesRole(free: seq<nat>, own: Owners, f: nat, role: Role)
    requires f in own
    ensures Frames(free, own[f := role]) == Frames(free, own)
  {
    assert own[f := role].Keys == own.Keys;
  }
}
