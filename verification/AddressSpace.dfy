// What the operations of vm.c do to page tables and roles, as facts about values:
// changes of the flat map, of who owns a frame, and of the free list's length.
module AddressSpaces {
  import opened Bytes
  import opened Common
  import opened PageTables

  const PGSIZE: nat := 0x1000
  const KERNBASE: nat := 0x8000_0000
  const EXTMEM: nat := 0x10_0000        // the kernel is loaded here
  const PHYSTOP: nat := 0xE00_0000      // end of physical memory

  const VMA_START: nat := 0x6000_0000
  const VMA_END: nat := 0x8000_0000
  const NVMA: nat := 32

  datatype Vma = Vma(addr: int, end: int, prot: int, flags: nat, fd: int, offset: int, valid: bool)

  predicate Anonymous(flags: nat) { flags / 4 % 2 == 1 }     // MAP_ANONYMOUS

  predicate Fixed(flags: nat) { flags / 8 % 2 == 1 }         // MAP_FIXED

  // PGROUNDUP(a) / PGSIZE
  function PageUp(a: nat): nat { (a + PGSIZE - 1) / PGSIZE }

  // The frames of the whole pages between two kernel addresses.
  ghost function PagesIn(vstart: nat, vend: nat): (s: set<nat>)
    requires KERNBASE <= vstart
  {
    if vend / PGSIZE < PageUp(vstart) then {} else Range(PageUp(vstart) - UPAGES, vend / PGSIZE - UPAGES)
  }

  lemma PagesHas(vstart: nat, vend: nat)
    requires KERNBASE <= vstart
    ensures forall f: nat :: f in PagesIn(vstart, vend) <==> PageUp(vstart) - UPAGES <= f < vend / PGSIZE - UPAGES
    ensures |PagesIn(vstart, vend)| == if vend / PGSIZE < PageUp(vstart) then 0 else vend / PGSIZE - PageUp(vstart)
  {
  }

  // The loop of freerange at page p: what it has freed, and what it frees next.
  lemma PagesNext(vstart: nat, vend: nat, p: nat)
    requires KERNBASE <= vstart && PageUp(vstart) <= p
    ensures |PagesIn(vstart, PGSIZE * p)| == p - PageUp(vstart)
    ensures p == PageUp(vstart) ==> PagesIn(vstart, PGSIZE * p) == {}
    ensures PGSIZE * (p + 1) <= vend ==> p - UPAGES in PagesIn(vstart, vend)
    ensures PagesIn(vstart, PGSIZE * (p + 1)) == PagesIn(vstart, PGSIZE * p) + {p - UPAGES}
    ensures p - UPAGES !in PagesIn(vstart, PGSIZE * p)
    ensures vend < PGSIZE * (p + 1) && (p == PageUp(vstart) || PGSIZE * p <= vend) ==>
      PagesIn(vstart, PGSIZE * p) == PagesIn(vstart, vend)
  {
    PagesHas(vstart, PGSIZE * p);
    PagesHas(vstart, PGSIZE * (p + 1));
    PagesHas(vstart, vend);
    hide PagesIn;
  }

  // The memory after the kernel, in two parts.
  lemma PagesSplit(vstart: nat, mid: nat, vend: nat)
    requires KERNBASE <= vstart <= mid <= vend && mid % PGSIZE == 0
    ensures PagesIn(vstart, vend) == PagesIn(vstart, mid) + PagesIn(mid, vend)
    ensures PagesIn(vstart, mid) !! PagesIn(mid, vend)
  {
    PagesHas(vstart, mid);
    PagesHas(mid, vend);
    PagesHas(vstart, vend);
    hide PagesIn;
  }

  const FOURMB: nat := KERNBASE + 0x40_0000     // P2V(4*1024*1024)
  const TOP: nat := KERNBASE + PHYSTOP           // P2V(PHYSTOP)

  // The kernel, loaded at EXTMEM, leaves 65 pages of the first four megabytes.
  predicate KernelEnd(end: nat) {
    KERNBASE + EXTMEM <= end && PageUp(end) + KVMFRAMES <= FOURMB / PGSIZE
  }

  lemma KernelPages(end: nat)
    requires KernelEnd(end)
    ensures PagesIn(end, TOP) == PagesIn(end, FOURMB) + PagesIn(FOURMB, TOP)
    ensures PagesIn(end, FOURMB) !! PagesIn(FOURMB, TOP)
    ensures forall f: nat | f in PagesIn(end, TOP) :: 0 < f < UPAGES
    ensures |PagesIn(end, FOURMB)| >= KVMFRAMES && |PagesIn(FOURMB, TOP)| == 0xDC00
  {
    PagesSplit(end, FOURMB, TOP);
    PagesHas(end, TOP);
    PagesHas(end, FOURMB);
    PagesHas(FOURMB, TOP);
    hide PagesIn;
  }

  ghost predicate AllLoose(own: Owners, s: set<nat>) {
    forall f | f in s :: f in own && own[f].Loose?
  }

  // perm | PTE_P
  function OrP(perm: nat): (flags: nat)
    ensures flags % 2 == 1 && (perm < 0x1000 ==> flags < 0x1000)
  {
    if perm % 2 == 1 then perm else perm + 1
  }

  // The directories' flat maps agree outside pages lo..hi of pd.
  ghost predicate SameOutside(mem: Mem, mem': Mem, own: Owners, pd: nat, lo: nat, hi: nat) {
    forall d: nat, v: nat {:trigger Flat(mem', d, v)} | IsDir(own, d) && v < NPAGES && !(d == pd && lo <= v < hi) ::
      Flat(mem', d, v) == Flat(mem, d, v)
  }

  ghost predicate SameMaps(mem: Mem, mem': Mem, own: Owners) {
    forall d: nat, v: nat {:trigger Flat(mem', d, v)} | IsDir(own, d) && v < NPAGES :: Flat(mem', d, v) == Flat(mem, d, v)
  }

  // User pages and loose frames keep their contents.
  ghost predicate SameData(mem: Mem, mem': Mem, own: Owners) {
    forall f | f in own && (own[f].User? || own[f].Loose?) && f in mem :: f in mem' && mem'[f] == mem[f]
  }

  // Frames outside changed keep their roles; new ones are page tables of pd.
  ghost predicate Grown(own: Owners, own': Owners, pd: nat, changed: set<nat>) {
    && (forall g | g in own && g !in changed :: g in own' && own'[g] == own[g])
    && (forall g | g in own' && g !in own :: own'[g].Tab? && own'[g].pd == pd)
  }

  lemma StoreIsWithPte(mem: Mem, pd: nat, vpn: nat, w: Word32)
    requires vpn < NPAGES && Frame(Pde(mem, pd, vpn / NENTRIES)) in mem
    ensures var t := Frame(Pde(mem, pd, vpn / NENTRIES)); WithPte(mem, pd, vpn, w) == mem[t := mem[t][vpn % NENTRIES := w]]
  {
  }

  // A new entry changes the flat map at vpn alone, and disturbs neither the
  // free list nor user data.
  lemma MapStores(mem: Mem, head: Word32, free: seq<nat>, own: Owners, pd: nat, vpn: nat, f: nat, flags: nat)
    requires FreeInv(mem, head, free, own) && OwnInv(mem, own) && IsDir(own, pd) && vpn < NPAGES
    requires Present(Pde(mem, pd, vpn / NENTRIES)) && Flat(mem, pd, vpn) == 0
    requires f < NPAGES && flags < 0x1000 && flags % 2 == 1 && (vpn < UPAGES ==> f in own && own[f].Loose?)
    ensures Frame(Pde(mem, pd, vpn / NENTRIES)) in mem
    ensures var m := WithPte(mem, pd, vpn, Entry(f, flags));
      var own' := if vpn < UPAGES then own[f := User(pd, vpn)] else own;
      && FreeInv(m, head, free, own') && OwnInv(m, own') && SameData(mem, m, own)
      && Frames(free, own') == Frames(free, own)
      && (forall d: nat :: IsDir(own', d) <==> IsDir(own, d))
      && SameOutside(mem, m, own', pd, vpn, vpn + 1) && Flat(m, pd, vpn) == Entry(f, flags)
      && (vpn < UPAGES ==> f in mem && m[f] == mem[f])
  {
    hide Pte, Entry, Present;
    TableHeld(mem, own, pd, vpn / NENTRIES);
    var w := Entry(f, flags);
    EntryFields(f, flags);
    if vpn < UPAGES {
      MapUserKeeps(mem, own, pd, vpn, f, flags);
      FramesRole(free, own, f, User(pd, vpn));
    } else {
      MapKernelKeeps(mem, own, pd, vpn, w);
    }
    ChainFrame(mem, WithPte(mem, pd, vpn, w), head, free);
    WithPteEntries(mem, own, pd, vpn, w);
    hide Chain, Referenced, RoleHeld, WithPte, Frame, Pde, Frames;
  }

  lemma OutsideTrans(mem0: Mem, mem1: Mem, mem2: Mem, own1: Owners, own2: Owners, pd: nat, vpn: nat)
    requires SameMaps(mem0, mem1, own1) && SameOutside(mem1, mem2, own2, pd, vpn, vpn + 1)
    requires forall d: nat :: IsDir(own2, d) ==> IsDir(own1, d)
    ensures SameOutside(mem0, mem2, own2, pd, vpn, vpn + 1)
  {
    hide Flat;
    forall d: nat, v: nat | IsDir(own2, d) && v < NPAGES && !(d == pd && v == vpn)
      ensures Flat(mem2, d, v) == Flat(mem0, d, v)
    {
      assert Flat(mem1, d, v) == Flat(mem0, d, v);
    }
  }

  // own' is own without the user pages lo..hi of pd.
  ghost predicate Dropped(own: Owners, own': Owners, pd: nat, lo: nat, hi: nat) {
    && (forall f | f in own' :: f in own && own'[f] == own[f] && !UserIn(own[f], pd, lo, hi))
    && (forall f | f in own && !UserIn(own[f], pd, lo, hi) :: f in own')
  }

  predicate UserIn(role: Role, pd: nat, lo: nat, hi: nat) {
    role.User? && role.pd == pd && lo <= role.vpn < hi
  }

  // Absent pages own nothing.
  lemma DropNone(mem: Mem, own0: Owners, own: Owners, pd: nat, lo: nat, a: nat, b: nat)
    requires OwnInv(mem, own) && Dropped(own0, own, pd, lo, a) && lo <= a <= b
    requires forall v: nat | a <= v < b && v < NPAGES :: Flat(mem, pd, v) == 0
    ensures Dropped(own0, own, pd, lo, b)
  {
    hide Pte, Present;
    forall f | f in own
      ensures !UserIn(own[f], pd, a, b)
    {
      assert RoleHeld(mem, own, f);
      if own[f].User? && own[f].vpn < NPAGES { var w := Flat(mem, pd, own[f].vpn); }
    }
  }

  lemma DropNext(own0: Owners, own: Owners, own': Owners, pd: nat, lo: nat, a: nat)
    requires Dropped(own0, own, pd, lo, a) && Dropped(own, own', pd, a, a + 1) && lo <= a
    ensures Dropped(own0, own', pd, lo, a + 1)
  {
  }

  // Without a page table, all pages of that directory entry are absent.
  lemma NoTable(mem: Mem, pd: nat, vpn: nat)
    requires vpn < NPAGES && !Present(Pde(mem, pd, vpn / NENTRIES))
    ensures forall v: nat | v / NENTRIES == vpn / NENTRIES && v < NPAGES :: Flat(mem, pd, v) == 0
  {
  }

  lemma SkipRange(a: nat)
    ensures forall v: nat | a <= v < (a / NENTRIES + 1) * NENTRIES :: v / NENTRIES == a / NENTRIES
    ensures a < (a / NENTRIES + 1) * NENTRIES
  {
  }

  lemma AbsentZero()
    ensures !Present(0)
  {
  }

  // The frame of user page vpn is used for that page only.
  lemma OwnUser(mem: Mem, own: Owners, pd: nat, vpn: nat)
    requires OwnInv(mem, own) && IsDir(own, pd) && vpn < UPAGES && Present(Pte(mem, pd, vpn))
    ensures var f := Frame(Pte(mem, pd, vpn));
      && 0 < f < UPAGES && f in own && own[f] == User(pd, vpn)
      && (forall g | g in own && own[g] == User(pd, vpn) :: g == f)
  {
    hide Pte, Present;
    forall g | g in own && own[g] == User(pd, vpn)
      ensures g == Frame(Pte(mem, pd, vpn))
    {
      assert RoleHeld(mem, own, g);
    }
  }

  lemma DropAbsent(mem: Mem, own: Owners, pd: nat, vpn: nat)
    requires OwnInv(mem, own) && vpn < UPAGES && !Present(Pte(mem, pd, vpn))
    ensures Dropped(own, own, pd, vpn, vpn + 1)
  {
    hide Pte, Present;
    forall f | f in own
      ensures !UserIn(own[f], pd, vpn, vpn + 1)
    {
      assert RoleHeld(mem, own, f);
    }
  }

  // Clearing the entry after kfree disturbs neither the free list nor data.
  lemma UnmapStores(mem: Mem, head: Word32, free: seq<nat>, own: Owners, pd: nat, vpn: nat, page: Page)
    requires FreeInv(mem, head, free, own) && OwnInv(mem, own) && IsDir(own, pd) && vpn < UPAGES
    requires Present(Pte(mem, pd, vpn))
    ensures var f := Frame(Pte(mem, pd, vpn));
      var t := Frame(Pde(mem, pd, vpn / NENTRIES));
      && t in own && own[t].Tab? && t != f && f in own && own[f].User?
      && (forall k | 0 <= k < |free| :: free[k] != t && free[k] != f)
      && Pde(mem[f := page], pd, vpn / NENTRIES) == Pde(mem, pd, vpn / NENTRIES)
  {
    TableHeld(mem, own, pd, vpn / NENTRIES);
    OwnUser(mem, own, pd, vpn);
  }

  // Page vpn is mapped writable for the user, to a zeroed frame of its own.
  ghost predicate ZeroMapped(mem: Mem, own: Owners, pd: nat, vpn: nat) {
    exists f: nat :: MappedTo(mem, own, pd, vpn, f) && f in mem && mem[f] == ZeroPage()
  }

  ghost predicate MappedTo(mem: Mem, own: Owners, pd: nat, vpn: nat, f: nat) {
    && vpn < UPAGES && f < NPAGES && Flat(mem, pd, vpn) == Entry(f, PTE_W + PTE_U + PTE_P)
    && f in own && own[f] == User(pd, vpn)
  }

  lemma ZeroKept(mem: Mem, own: Owners, mem': Mem, own': Owners, pd: nat, v: nat, a: nat)
    requires ZeroMapped(mem, own, pd, v) && v != a && IsDir(own', pd)
    requires SameOutside(mem, mem', own', pd, a, a + 1) && SameData(mem, mem', own)
    requires forall g | g in own :: g in own' && own'[g] == own[g]
    ensures ZeroMapped(mem', own', pd, v)
  {
    hide Flat, Entry;
    var f: nat :| MappedTo(mem, own, pd, v, f) && f in mem && mem[f] == ZeroPage();
    assert MappedTo(mem', own', pd, v, f);
  }

  lemma UndoneMaps(mem0: Mem, mem1: Mem, mem2: Mem, own: Owners, pd: nat, lo: nat, a: nat, hi: nat)
    requires SameOutside(mem0, mem1, own, pd, lo, a) && SameOutside(mem1, mem2, own, pd, lo, hi) && a <= hi <= NPAGES
    requires forall v: nat | lo <= v < hi :: Flat(mem0, pd, v) == 0 && Flat(mem2, pd, v) == 0
    ensures SameMaps(mem0, mem2, own)
  {
    hide Flat;
    forall d: nat, v: nat | IsDir(own, d) && v < NPAGES
      ensures Flat(mem2, d, v) == Flat(mem0, d, v)
    {
      if !(d == pd && lo <= v < hi) {
        assert Flat(mem1, d, v) == Flat(mem0, d, v);
      }
    }
  }

  lemma MapsTrans(mem0: Mem, mem1: Mem, mem2: Mem, own1: Owners, own2: Owners)
    requires SameMaps(mem0, mem1, own1) && SameMaps(mem1, mem2, own2)
    requires forall d: nat :: IsDir(own2, d) ==> IsDir(own1, d)
    ensures SameMaps(mem0, mem2, own2)
  {
    hide Flat;
    forall d: nat, v: nat | IsDir(own2, d) && v < NPAGES
      ensures Flat(mem2, d, v) == Flat(mem0, d, v)
    {
      assert Flat(mem1, d, v) == Flat(mem0, d, v);
    }
  }

  // own' has page tables of pd and user pages lo..hi of pd more than own.
  ghost predicate Added(own: Owners, own': Owners, pd: nat, lo: nat, hi: nat) {
    && (forall g | g in own :: g in own' && own'[g] == own[g])
    && (forall g | g in own' && g !in own :: (own'[g].Tab? && own'[g].pd == pd) || UserIn(own'[g], pd, lo, hi))
  }

  // Unmapped user pages have no frame.
  lemma NoOwners(mem: Mem, own: Owners, pd: nat, lo: nat, hi: nat)
    requires OwnInv(mem, own) && forall v: nat | lo <= v < hi && v < NPAGES :: Flat(mem, pd, v) == 0
    ensures forall f | f in own :: !UserIn(own[f], pd, lo, hi)
  {
    hide Pte, Present;
    forall f | f in own
      ensures !UserIn(own[f], pd, lo, hi)
    {
      assert RoleHeld(mem, own, f);
      if own[f].User? && own[f].vpn < NPAGES { var w := Flat(mem, pd, own[f].vpn); }
    }
  }

  lemma TableHeld(mem: Mem, own: Owners, pd: nat, i: nat)
    requires OwnInv(mem, own) && IsDir(own, pd) && i < NENTRIES && Present(Pde(mem, pd, i))
    ensures var t := Frame(Pde(mem, pd, i)); t in own && own[t] == Tab(pd, i) && t in mem && 0 < t < UPAGES
  {
  }

  // A new table disturbs neither the free list nor user data.
  lemma TableStores(mem: Mem, head: Word32, free: seq<nat>, own: Owners, pd: nat, i: nat, t: nat)
    requires FreeInv(mem, head, free, own) && OwnInv(mem, own) && IsDir(own, pd) && i < NENTRIES
    requires t in own && own[t].Loose? && t < NPAGES
    ensures FreeInv(WithTable(mem, pd, i, t), head, free, own[t := Tab(pd, i)])
    ensures SameData(mem, WithTable(mem, pd, i, t), own - {t}) && t in WithTable(mem, pd, i, t)
  {
    ChainFrame(mem, WithTable(mem, pd, i, t), head, free);
    hide Chain;
  }

  lemma RoleLoose(mem: Mem, own: Owners, f: nat)
    requires OwnInv(mem, own) && f !in own && 0 < f < UPAGES && f in mem
    ensures OwnInv(mem, own[f := Loose])
  {
    hide Pte, Pde;
    var own' := own[f := Loose];
    assert forall d: nat :: IsDir(own', d) <==> IsDir(own, d);
    forall g | g in own'
      ensures RoleHeld(mem, own', g)
    {
      if g != f { assert RoleHeld(mem, own, g); }
    }
  }

  // A loose frame leaves, its contents overwritten.
  lemma LooseKeeps(mem: Mem, own: Owners, f: nat, page: Page)
    requires OwnInv(mem, own) && f in own && own[f].Loose?
    ensures OwnInv(mem[f := page], own - {f}) && SameMaps(mem, mem[f := page], own - {f})
  {
    DataKeeps(mem, own, f, page);
    NoLooseRef(mem[f := page], own, f);
    hide Pte, Pde;
    var m, own' := mem[f := page], own - {f};
    assert forall d: nat :: IsDir(own', d) <==> IsDir(own, d);
    forall g | g in own'
      ensures RoleHeld(m, own', g)
    {
      assert RoleHeld(m, own, g);
    }
  }

  lemma FreeLess(mem: Mem, head: Word32, free: seq<nat>, own: Owners, f: nat)
    requires FreeInv(mem, head, free, own) && f in own
    ensures FreeInv(mem, head, free, own - {f}) && forall k | 0 <= k < |free| :: free[k] != f
  {
  }

  // f, in role, is part of the address space of pd.
  predicate OfSpace(role: Role, f: nat, pd: nat) {
    f == pd || (role.Tab? && role.pd == pd) || (role.User? && role.pd == pd)
  }

  // own' is own without the address space of pd.
  ghost predicate Without(own: Owners, own': Owners, pd: nat) {
    && (forall f | f in own' :: f in own && own'[f] == own[f] && !OfSpace(own[f], f, pd))
    && (forall f | f in own && !OfSpace(own[f], f, pd) :: f in own')
  }

  predicate TabIn(role: Role, pd: nat, lo: nat, hi: nat) {
    role.Tab? && role.pd == pd && lo <= role.i < hi
  }

  // The directory pd and its tables, no longer used as such.
  ghost function GivenUp(own: Owners, pd: nat): Owners {
    map f | f in own :: if f == pd || (own[f].Tab? && own[f].pd == pd) then Loose else own[f]
  }

  // The loop of freevm, with the tables of entries below i freed: own1 are the
  // roles before the loop, own those that remain.
  ghost predicate FreeLoop(mem0: Mem, mem1: Mem, own1: Owners, mem: Mem, own: Owners, pd: nat, i: nat) {
    && (forall f | f in own :: f in own1 && !TabIn(own1[f], pd, 0, i) && own[f] == GivenUp(own1, pd)[f])
    && (forall f | f in own1 && !TabIn(own1[f], pd, 0, i) :: f in own)
    && pd in mem && pd in mem1 && mem[pd] == mem1[pd] && IsDir(own1, pd) && OwnInv(mem1, own1)
    && SameMaps(mem0, mem, own) && SameData(mem0, mem, Rest(own1, pd))
  }

  ghost function Rest(own: Owners, pd: nat): Owners {
    map f | f in own && !OfSpace(own[f], f, pd) :: own[f]
  }

  lemma GiveUp(mem0: Mem, own0: Owners, mem: Mem, own: Owners, head: Word32, free: seq<nat>, pd: nat)
    requires OwnInv(mem, own) && FreeInv(mem, head, free, own) && IsDir(own0, pd)
    requires Dropped(own0, own, pd, PageUp(0), PageUp(KERNBASE))
    requires SameOutside(mem0, mem, own, pd, PageUp(0), PageUp(KERNBASE)) && SameData(mem0, mem, own)
    ensures OwnInv(mem, GivenUp(own, pd)) && FreeInv(mem, head, free, GivenUp(own, pd))
    ensures Frames(free, GivenUp(own, pd)) == Frames(free, own)
    ensures FreeLoop(mem0, mem, own, mem, GivenUp(own, pd), pd, 0)
  {
    var own' := GivenUp(own, pd);
    assert own'.Keys == own.Keys;
    hide Pte, Pde, Frame, Present, Chain, Flat;
    assert forall d: nat :: IsDir(GivenUp(own, pd), d) <==> IsDir(own, d) && d != pd;
    forall f | f in own'
      ensures RoleHeld(mem, own', f)
    {
      assert RoleHeld(mem, own, f);
    }
  }

  // The frame that entry i of pd refers to is its page table, the only one.
  // If there is none, nothing is left to do for entry i.
  lemma TableOf(mem0: Mem, mem1: Mem, own1: Owners, mem: Mem, own: Owners, pd: nat, i: nat)
    requires FreeLoop(mem0, mem1, own1, mem, own, pd, i) && i < NENTRIES
    ensures pd in mem
    ensures var e := mem[pd][i];
      && (Present(e) ==> Frame(e) in own && own[Frame(e)].Loose?)
      && (!Present(e) ==> FreeLoop(mem0, mem1, own1, mem, own, pd, i + 1))
  {
    OneTable(mem1, own1, pd, i);
    hide OwnInv, SameMaps, SameData, Frame, Present, Rest;
  }

  lemma OneTable(mem: Mem, own: Owners, pd: nat, i: nat)
    requires OwnInv(mem, own) && IsDir(own, pd) && i < NENTRIES
    ensures pd in mem
    ensures forall f | f in own :: TabIn(own[f], pd, i, i + 1) <==> Present(mem[pd][i]) && f == Frame(mem[pd][i])
    ensures Present(mem[pd][i]) ==> Frame(mem[pd][i]) in own
  {
    assert mem[pd][i] == Pde(mem, pd, i);
    hide Pte, Pde, Frame, Present;
    forall f | f in own && TabIn(own[f], pd, i, i + 1)
      ensures Present(mem[pd][i]) && f == Frame(mem[pd][i])
    {
      assert RoleHeld(mem, own, f);
    }
  }

  lemma FreedTable(mem0: Mem, mem1: Mem, own1: Owners, mem2: Mem, own2: Owners, mem: Mem, own: Owners, pd: nat, i: nat)
    requires FreeLoop(mem0, mem1, own1, mem2, own2, pd, i) && i < NENTRIES && Present(mem2[pd][i])
    requires own == own2 - {Frame(mem2[pd][i])} && SameMaps(mem2, mem, own) && SameData(mem2, mem, own)
    ensures FreeLoop(mem0, mem1, own1, mem, own, pd, i + 1)
  {
    OneTable(mem1, own1, pd, i);
    MapsTrans(mem0, mem2, mem, own2, own);
    hide OwnInv, SameMaps, Frame, Present, Flat;
    assert pd in own;
    RestKept(mem0, mem2, mem, own1, own, pd, i);
  }

  lemma RestKept(mem0: Mem, mem2: Mem, mem: Mem, own1: Owners, own: Owners, pd: nat, i: nat)
    requires forall f | f in own :: f in own1 && own[f] == GivenUp(own1, pd)[f]
    requires forall f | f in own1 && !TabIn(own1[f], pd, 0, i + 1) :: f in own
    requires SameData(mem0, mem2, Rest(own1, pd)) && SameData(mem2, mem, own)
    ensures SameData(mem0, mem, Rest(own1, pd))
  {
  }

  lemma FreeEnd(mem0: Mem, own0: Owners, mem1: Mem, own1: Owners, mem: Mem, own: Owners, pd: nat)
    requires FreeLoop(mem0, mem1, own1, mem, own, pd, NENTRIES)
    requires Dropped(own0, own1, pd, PageUp(0), PageUp(KERNBASE)) && IsDir(own0, pd)
    ensures pd in own && own[pd].Loose? && SameMaps(mem0, mem, own)
    ensures SameData(mem0, mem, own - {pd}) && Without(own0, own - {pd}, pd)
  {
    TablesGone(mem1, own1, own0, pd);
    hide SameMaps, OwnInv, SameData;
    assert Rest(own1, pd) == own - {pd};
  }

  // All that is left of the address space of pd is its directory.
  lemma TablesGone(mem: Mem, own: Owners, own0: Owners, pd: nat)
    requires OwnInv(mem, own) && Dropped(own0, own, pd, PageUp(0), PageUp(KERNBASE))
    ensures forall f | f in own && own[f].Tab? && own[f].pd == pd :: TabIn(own[f], pd, 0, NENTRIES)
    ensures forall f | f in own :: f in own0 && own[f] == own0[f] && !(own[f].User? && own[f].pd == pd)
    ensures forall f | f in own0 && f !in own :: own0[f].User? && own0[f].pd == pd
  {
    hide Pte, Pde, Present, Frame;
    forall f | f in own
      ensures own[f].Tab? && own[f].pd == pd ==> TabIn(own[f], pd, 0, NENTRIES)
      ensures f in own0 && own[f] == own0[f] && !(own[f].User? && own[f].pd == pd)
    {
      assert RoleHeld(mem, own, f);
      assert PageUp(0) == 0 && PageUp(KERNBASE) == UPAGES;
    }
  }

  lemma FreedDir(mem0: Mem, own0: Owners, mem2: Mem, own2: Owners, mem: Mem, own: Owners, pd: nat)
    requires SameMaps(mem0, mem2, own2) && SameData(mem0, mem2, own) && own == own2 - {pd}
    requires SameMaps(mem2, mem, own) && SameData(mem2, mem, own)
    ensures SameMaps(mem0, mem, own) && SameData(mem0, mem, own)
  {
    MapsTrans(mem0, mem2, mem, own2, own);
  }

  // Pages lo..hi of pd are mapped to zeroed frames, all else is as it was.
  ghost predicate Allocated(mem0: Mem, own0: Owners, mem: Mem, own: Owners, pd: nat, lo: nat, hi: nat) {
    && SameOutside(mem0, mem, own, pd, lo, hi) && Added(own0, own, pd, lo, hi)
    && forall v: nat | lo <= v < hi :: ZeroMapped(mem, own, pd, v)
  }

  ghost predicate Enough(nfree: nat, mem: Mem, pd: nat, lo: nat, hi: nat) {
    nfree >= hi - lo + |Needs(mem, pd, lo, hi)|
  }

  // The loop of allocuvm and of mmap, with pages lo..a done: nfree0 and nfree
  // are the lengths of the free list.
  ghost predicate AllocLoop(mem0: Mem, own0: Owners, nfree0: nat, mem: Mem, own: Owners, nfree: nat, pd: nat,
                            lo: nat, a: nat) {
    && lo <= a && IsDir(own0, pd) && Allocated(mem0, own0, mem, own, pd, lo, a) && SameData(mem0, mem, own0)
    && TablesAdded(mem0, mem, pd, Needs(mem0, pd, lo, a))
    && nfree + (a - lo) + |Needs(mem0, pd, lo, a)| == nfree0
  }

  lemma AllocStart(mem: Mem, own: Owners, nfree: nat, pd: nat, lo: nat)
    requires IsDir(own, pd)
    ensures AllocLoop(mem, own, nfree, mem, own, nfree, pd, lo, lo)
  {
    assert Needs(mem, pd, lo, lo) == {};
  }

  lemma AllocAbsent(mem0: Mem, own0: Owners, nfree0: nat, mem: Mem, own: Owners, nfree: nat, pd: nat, lo: nat, a: nat)
    requires AllocLoop(mem0, own0, nfree0, mem, own, nfree, pd, lo, a) && a < NPAGES && Flat(mem0, pd, a) == 0
    ensures Flat(mem, pd, a) == 0
  {
    hide Flat;
    assert Flat(mem, pd, a) == Flat(mem0, pd, a);
  }

  lemma AllocFailed(mem0: Mem, own0: Owners, nfree0: nat, mem1: Mem, own1: Owners, nfree1: nat,
                    mem: Mem, own: Owners, pd: nat, lo: nat, a: nat, hi: nat, f: nat)
    requires AllocLoop(mem0, own0, nfree0, mem1, own1, nfree1, pd, lo, a) && a < hi <= NPAGES
    requires nfree1 < 1 + |Needs(mem1, pd, a, a + 1)|
    requires SameData(mem1, mem, own1) && SameOutside(mem1, mem, own, pd, a, a)
    requires f == 0 ==> own == own1
    requires f != 0 ==> f !in own1 && f in own && own[f].Loose?
    requires Grown(own1, if f == 0 then own else own - {f}, pd, {})
    ensures !Enough(nfree0, mem0, pd, lo, hi)
    ensures SameOutside(mem0, mem, own, pd, lo, a) && SameData(mem0, mem, own0)
    ensures Added(own0, if f == 0 then own else own - {f}, pd, lo, a) && (f != 0 ==> f !in own0)
  {
    hide Flat, SameData;
    NeedsNext(mem0, mem1, mem, pd, lo, a);
    NeedsMore(mem0, pd, lo, a + 1, hi);
    DataTrans(mem0, mem1, mem, own0, own1);
    forall d: nat, v: nat | IsDir(own, d) && v < NPAGES && !(d == pd && lo <= v < a)
      ensures Flat(mem, d, v) == Flat(mem0, d, v)
    {
      assert Flat(mem1, d, v) == Flat(mem0, d, v);
    }
  }

  lemma AllocNext(mem0: Mem, own0: Owners, nfree0: nat, mem1: Mem, own1: Owners, nfree1: nat,
                  mem: Mem, own: Owners, nfree: nat, pd: nat, lo: nat, a: nat, f: nat)
    requires AllocLoop(mem0, own0, nfree0, mem1, own1, nfree1, pd, lo, a) && a < UPAGES && IsDir(own, pd)
    requires SameData(mem1, mem, own1) && SameOutside(mem1, mem, own, pd, a, a + 1)
    requires f !in own1 && Grown(own1, own - {f}, pd, {}) && MappedTo(mem, own, pd, a, f) && f in mem
    requires mem[f] == ZeroPage()
    requires nfree == nfree1 - 1 - |Needs(mem1, pd, a, a + 1)|
    requires TablesAdded(mem1, mem, pd, Needs(mem1, pd, a, a + 1))
    ensures AllocLoop(mem0, own0, nfree0, mem, own, nfree, pd, lo, a + 1)
  {
    NeedsNext(mem0, mem1, mem, pd, lo, a);
    hide Flat, Entry, Needs, TablesAdded, ZeroMapped, SameData;
    assert ZeroMapped(mem, own, pd, a) by { ZeroNow(mem, own, pd, a, f); }
    forall v: nat | lo <= v < a
      ensures ZeroMapped(mem, own, pd, v)
    {
      ZeroKept(mem1, own1, mem, own, pd, v, a);
    }
    DataTrans(mem0, mem1, mem, own0, own1);
    forall d: nat, v: nat | IsDir(own, d) && v < NPAGES && !(d == pd && lo <= v < a + 1)
      ensures Flat(mem, d, v) == Flat(mem0, d, v)
    {
      assert Flat(mem1, d, v) == Flat(mem0, d, v);
    }
  }

  lemma ZeroNow(mem: Mem, own: Owners, pd: nat, vpn: nat, f: nat)
    requires MappedTo(mem, own, pd, vpn, f) && f in mem && mem[f] == ZeroPage()
    ensures ZeroMapped(mem, own, pd, vpn)
  {
  }

  lemma AllocEnd(mem0: Mem, own0: Owners, nfree0: nat, mem: Mem, own: Owners, nfree: nat, pd: nat, lo: nat, hi: nat)
    requires AllocLoop(mem0, own0, nfree0, mem, own, nfree, pd, lo, hi)
    ensures Enough(nfree0, mem0, pd, lo, hi) && SameData(mem0, mem, own0)
    ensures Allocated(mem0, own0, mem, own, pd, lo, hi)
  {
  }

  // The directory entries for pages lo..hi that have no page table.
  ghost function Needs(mem: Mem, pd: nat, lo: nat, hi: nat): set<nat> {
    set i: nat | i < NENTRIES && lo < hi && lo / NENTRIES <= i <= (hi - 1) / NENTRIES && !Present(Pde(mem, pd, i))
  }

  ghost predicate TablesAdded(mem: Mem, mem': Mem, pd: nat, added: set<nat>) {
    forall i: nat {:trigger Pde(mem', pd, i)} | i < NENTRIES ::
      Present(Pde(mem', pd, i)) <==> Present(Pde(mem, pd, i)) || i in added
  }

  lemma NeedsOne(mem: Mem, pd: nat, vpn: nat)
    requires vpn < NPAGES
    ensures Needs(mem, pd, vpn, vpn + 1) == if Present(Pde(mem, pd, vpn / NENTRIES)) then {} else {vpn / NENTRIES}
  {
    hide Pde, Present;
  }

  lemma AddedSame(mem0: Mem, mem1: Mem, mem: Mem, pd: nat, added: set<nat>)
    requires TablesAdded(mem0, mem1, pd, added)
    requires forall i: nat | i < NENTRIES :: Pde(mem, pd, i) == Pde(mem1, pd, i)
    ensures TablesAdded(mem0, mem, pd, added)
  {
    hide Pde, Present;
    forall i: nat | i < NENTRIES
      ensures Present(Pde(mem, pd, i)) <==> Present(Pde(mem0, pd, i)) || i in added
    {
      assert Pde(mem, pd, i) == Pde(mem1, pd, i);
    }
  }

  // The same with the equal entries before the change.
  lemma NeedsSame(mem0: Mem, mem1: Mem, mem: Mem, own: Owners, pd: nat, vpn: nat)
    requires IsDir(own, pd)
    requires forall i: nat | i < NENTRIES :: Pde(mem1, pd, i) == Pde(mem0, pd, i)
    ensures Needs(mem1, pd, vpn, vpn + 1) == Needs(mem0, pd, vpn, vpn + 1)
    ensures TablesAdded(mem1, mem, pd, Needs(mem1, pd, vpn, vpn + 1)) ==>
              TablesAdded(mem0, mem, pd, Needs(mem0, pd, vpn, vpn + 1))
  {
    hide Pde, Present;
  }

  lemma NoNeeds(mem: Mem, pd: nat, a: nat)
    ensures Needs(mem, pd, a, a) == {} && TablesAdded(mem, mem, pd, {})
  {
  }

  // One more page, and the table it needs.
  lemma NeedsNext(mem0: Mem, mem1: Mem, mem: Mem, pd: nat, lo: nat, a: nat)
    requires lo <= a < NPAGES && TablesAdded(mem0, mem1, pd, Needs(mem0, pd, lo, a))
    ensures |Needs(mem0, pd, lo, a + 1)| == |Needs(mem0, pd, lo, a)| + |Needs(mem1, pd, a, a + 1)|
    ensures TablesAdded(mem1, mem, pd, Needs(mem1, pd, a, a + 1)) ==>
              TablesAdded(mem0, mem, pd, Needs(mem0, pd, lo, a + 1))
  {
    NeedsSplit(mem0, mem1, pd, lo, a);
    hide Pde, Present, Needs;
  }

  lemma NeedsSplit(mem0: Mem, mem1: Mem, pd: nat, lo: nat, a: nat)
    requires lo <= a < NPAGES && TablesAdded(mem0, mem1, pd, Needs(mem0, pd, lo, a))
    ensures Needs(mem0, pd, lo, a + 1) == Needs(mem0, pd, lo, a) + Needs(mem1, pd, a, a + 1)
    ensures Needs(mem0, pd, lo, a) !! Needs(mem1, pd, a, a + 1)
  {
    NeedsOne(mem1, pd, a);
    var i, before, now := a / NENTRIES, Needs(mem0, pd, lo, a), Needs(mem0, pd, lo, a + 1);
    hide Pde, Present;
    assert Present(Pde(mem1, pd, i)) <==> Present(Pde(mem0, pd, i)) || i in before;
    forall j: nat
      ensures j in now <==> j in before || (j == i && !Present(Pde(mem0, pd, j)))
    {
      EntriesNext(lo, a, j);
    }
  }

  lemma EntriesNext(lo: nat, a: nat, j: nat)
    requires lo <= a
    ensures lo / NENTRIES <= j <= a / NENTRIES <==> (lo < a && lo / NENTRIES <= j <= (a - 1) / NENTRIES) || j == a / NENTRIES
  {
  }

  lemma NeedsMore(mem: Mem, pd: nat, lo: nat, a: nat, hi: nat)
    requires lo <= a <= hi
    ensures |Needs(mem, pd, lo, a)| <= |Needs(mem, pd, lo, hi)|
  {
    hide Pde, Present;
    SubsetCount(Needs(mem, pd, lo, a), Needs(mem, pd, lo, hi));
  }

  // A row of kmap, in pages: n pages from vpn on map to the frames from f on.
  datatype Kmap = Kmap(vpn: nat, n: nat, f: nat, perm: nat)

  // The page of the symbol data, between the kernel's text and PHYSTOP.
  predicate DataPage(data: nat) { 0x8_0100 < data < 0x8_E000 }

  function Rows(data: nat): (rows: seq<Kmap>)
    requires DataPage(data)
    ensures |rows| == 4 && forall k | 0 <= k < 4 :: rows[k].n > 0
  {
    [ Kmap(0x8_0000, 0x100, 0, PTE_W),                             // I/O space
      Kmap(0x8_0100, data - 0x8_0100, 0x100, 0),                   // text and rodata
      Kmap(data, 0x8_E000 - data, data - 0x8_0000, PTE_W),         // data and free memory
      Kmap(0xF_E000, 0x2000, 0xF_E000, PTE_W) ]                    // devices
  }

  function RowStart(data: nat, k: nat): nat
    requires DataPage(data) && k <= 4
  {
    if k < 4 then Rows(data)[k].vpn else NPAGES
  }

  // The kernel's part of every address space: physical memory below PHYSTOP at
  // KERNBASE, read-only for the text, and the devices at their own address.
  function KernelMap(data: nat, v: nat): (w: Word32)
    requires v < NPAGES
    ensures v < UPAGES ==> w == 0
  {
    if 0x8_0000 <= v < 0x8_E000 then
      Entry(v - 0x8_0000, if 0x8_0100 <= v < data then PTE_P else PTE_W + PTE_P)
    else if 0xF_E000 <= v then Entry(v, PTE_W + PTE_P)
    else 0
  }

  // Bit k of an entry: 0 is present, 1 is writable, 2 is open to user code.
  predicate HasFlag(w: Word32, k: nat)
    requires k < 3
  {
    w / [1, 2, 4][k] % 2 == 1
  }

  // No kernel page is open to user code; all present ones can be written but the
  // text; and no two of them are one frame.
  lemma KernelProtected(data: nat, v: nat)
    requires DataPage(data) && v < NPAGES
    ensures var w := KernelMap(data, v);
      && (HasFlag(w, 0) <==> 0x8_0000 <= v < 0x8_E000 || 0xF_E000 <= v)
      && !HasFlag(w, 2)
      && (HasFlag(w, 1) <==> HasFlag(w, 0) && !(0x8_0100 <= v < data))
    ensures forall u: nat | u < v && KernelMap(data, u) != 0 && KernelMap(data, v) != 0 ::
      Frame(KernelMap(data, u)) != Frame(KernelMap(data, v))
  {
    KernelBits(data, v);
    KernelFrame(data, v);
    hide HasFlag;
    forall u: nat | u < v && KernelMap(data, u) != 0 && KernelMap(data, v) != 0
      ensures Frame(KernelMap(data, u)) != Frame(KernelMap(data, v))
    {
      KernelFrame(data, u);
      hide KernelMap, Frame;
    }
  }

  // Bits above the one looked at, and half or a quarter of a word.
  lemma Even(a: nat, b: nat)
    ensures (2 * a + b) % 2 == b % 2
  {
  }

  lemma Half(a: nat, b: nat)
    ensures (2 * a + b) / 2 == a + b / 2
  {
  }

  lemma Quarter(a: nat, b: nat)
    ensures (4 * a + b) / 4 == a + b / 4
  {
  }

  lemma EntryBits(f: nat, flags: nat)
    requires f < NPAGES && flags < 8
    ensures forall k: nat {:trigger HasFlag(Entry(f, flags), k)} | k < 3 :: HasFlag(Entry(f, flags), k) <==> HasFlag(flags, k)
  {
    var w := Entry(f, flags);
    Even(0x800 * f, flags);
    Half(0x800 * f, flags);
    Even(0x400 * f, flags / 2);
    Quarter(0x400 * f, flags);
    Even(0x200 * f, flags / 4);
    assert w / 1 % 2 == flags / 1 % 2 && w / 2 % 2 == flags / 2 % 2 && w / 4 % 2 == flags / 4 % 2;
    forall k: nat | k < 3
      ensures HasFlag(w, k) <==> HasFlag(flags, k)
    {
      assert k == 0 || k == 1 || k == 2;
    }
  }

  lemma KernelBits(data: nat, v: nat)
    requires DataPage(data) && v < NPAGES
    ensures var w := KernelMap(data, v);
      && (HasFlag(w, 0) <==> 0x8_0000 <= v < 0x8_E000 || 0xF_E000 <= v)
      && !HasFlag(w, 2)
      && (HasFlag(w, 1) <==> HasFlag(w, 0) && !(0x8_0100 <= v < data))
  {
    var f := if v < 0x8_0000 then 0 else if v < 0x8_E000 then v - 0x8_0000 else v;
    EntryBits(f, PTE_P);
    EntryBits(f, PTE_W + PTE_P);
    assert HasFlag(PTE_P, 0) && !HasFlag(PTE_P, 1) && !HasFlag(PTE_P, 2);
    assert HasFlag(PTE_W + PTE_P, 0) && HasFlag(PTE_W + PTE_P, 1) && !HasFlag(PTE_W + PTE_P, 2);
    assert !HasFlag(0, 0) && !HasFlag(0, 1) && !HasFlag(0, 2);
    hide HasFlag, Entry;
  }

  lemma KernelFrame(data: nat, v: nat)
    requires v < NPAGES
    ensures KernelMap(data, v) != 0 ==> Frame(KernelMap(data, v)) == if v < 0xF_E000 then v - 0x8_0000 else v
    ensures KernelMap(data, v) != 0 ==> 0x8_0000 <= v < 0x8_E000 || 0xF_E000 <= v
  {
  }

  // A page of user memory is present, writable and open to user code.
  lemma UserFlags(f: nat)
    requires f < NPAGES
    ensures var w := Entry(f, PTE_W + PTE_U + PTE_P);
      Frame(w) == f && HasFlag(w, 0) && HasFlag(w, 1) && HasFlag(w, 2)
  {
    EntryBits(f, PTE_W + PTE_U + PTE_P);
    EntryFields(f, PTE_W + PTE_U + PTE_P);
    var flags: nat := PTE_W + PTE_U + PTE_P;
    assert HasFlag(flags, 0) && HasFlag(flags, 1) && HasFlag(flags, 2);
    hide HasFlag, Entry, Frame;
  }

  // The address space of pd, made of frames that own0 does not have, next to
  // all that own0 and mem0 had.
  ghost predicate Building(mem0: Mem, own0: Owners, mem: Mem, own: Owners, pd: nat) {
    && pd !in own0 && IsDir(own, pd) && Spaced(own0, own, pd)
    && (forall f | f in own0 :: !OfSpace(own0[f], f, pd))
    && SameMaps(mem0, mem, own0) && SameData(mem0, mem, own0)
  }

  ghost predicate Spaced(own: Owners, own': Owners, pd: nat) {
    && (forall f | f in own :: f in own' && own'[f] == own[f])
    && (forall f | f in own' && f !in own :: OfSpace(own'[f], f, pd))
  }

  lemma SameAll(mem: Mem, own: Owners)
    ensures SameMaps(mem, mem, own) && SameData(mem, mem, own)
  {
  }

  lemma GrownSpace(own: Owners, own': Owners, pd: nat, changed: set<nat>)
    requires Grown(own, own', pd, changed) && changed == {}
    ensures Spaced(own, own', pd)
  {
  }

  lemma BuildingDir(mem0: Mem, own0: Owners, mem: Mem, own: Owners, pd: nat)
    requires Building(mem0, own0, mem, own, pd)
    ensures pd !in own0 && IsDir(own, pd) && Spaced(own0, own, pd) && SameData(mem0, mem, own0)
  {
  }

  // A zeroed loose frame can become a directory, with an empty flat map.
  lemma NewDir(mem0: Mem, own0: Owners, mem: Mem, own: Owners, head: Word32, free: seq<nat>, pd: nat)
    requires OwnInv(mem0, own0) && pd !in own0 && own == own0[pd := Loose] && mem == mem0[pd := ZeroPage()]
    requires OwnInv(mem, own) && FreeInv(mem, head, free, own) && SameMaps(mem0, mem, own)
    ensures OwnInv(mem, own[pd := Dir]) && FreeInv(mem, head, free, own[pd := Dir])
    ensures Frames(free, own[pd := Dir]) == Frames(free, own)
    ensures Building(mem0, own0, mem, own[pd := Dir], pd)
    ensures forall v: nat | v < NPAGES :: Flat(mem, pd, v) == 0
    ensures forall i: nat | i < NENTRIES :: !Present(Pde(mem, pd, i))
  {
    EmptyDir(mem, pd);
    OwnSpace(mem0, own0, pd);
    hide Pte, Pde, Frame, Present, Chain, RoleHeld, Flat, Frames, Referenced;
    FramesRole(free, own, pd, Dir);
    DirOwned(mem, own, pd);
    NewBuilding(mem0, own0, mem, own, pd);
  }

  lemma NewBuilding(mem0: Mem, own0: Owners, mem: Mem, own: Owners, pd: nat)
    requires pd !in own0 && own == own0[pd := Loose] && mem == mem0[pd := ZeroPage()]
    requires SameMaps(mem0, mem, own) && forall f | f in own0 :: !OfSpace(own0[f], f, pd)
    ensures Building(mem0, own0, mem, own[pd := Dir], pd)
  {
    hide Flat;
    forall d: nat | IsDir(own0, d)
      ensures IsDir(own, d)
    {
    }
  }

  lemma EmptyDir(mem: Mem, pd: nat)
    requires pd in mem && mem[pd] == ZeroPage()
    ensures forall i: nat | i < NENTRIES :: !Present(Pde(mem, pd, i))
    ensures forall v: nat | v < NPAGES :: !Present(Pte(mem, pd, v)) && Flat(mem, pd, v) == 0
  {
    AbsentZero();
    forall v: nat | v < NPAGES
      ensures Pte(mem, pd, v) == 0
    {
      assert Pde(mem, pd, v / NENTRIES) == 0;
    }
  }

  // No role names a frame that is not in use.
  lemma OwnSpace(mem: Mem, own: Owners, pd: nat)
    requires OwnInv(mem, own) && pd !in own
    ensures forall f | f in own :: !OfSpace(own[f], f, pd)
  {
    hide Pte, Pde, Frame, Present;
    forall f | f in own
      ensures !OfSpace(own[f], f, pd)
    {
      assert RoleHeld(mem, own, f);
    }
  }

  lemma DirOwned(mem: Mem, own: Owners, pd: nat)
    requires OwnInv(mem, own) && pd in own && own[pd].Loose?
    requires forall i: nat | i < NENTRIES :: !Present(Pde(mem, pd, i))
    requires forall v: nat | v < NPAGES :: !Present(Pte(mem, pd, v))
    ensures OwnInv(mem, own[pd := Dir])
  {
    hide Pte, Pde, Frame, Present;
    var own' := own[pd := Dir];
    NoLooseRef(mem, own, pd);
    forall f | f in own'
      ensures RoleHeld(mem, own', f)
    {
      assert RoleHeld(mem, own, f);
    }
    forall d: nat | IsDir(own', d)
      ensures d != pd ==> IsDir(own, d)
    {
    }
  }

  const KVMFRAMES: nat := 65     // the directory and 64 page tables

  // The directory entries that the first k rows of kmap fall into.
  ghost function KernelTables(data: nat, k: nat): set<nat>
    requires DataPage(data) && k <= 4
  {
    var upTo := if k == 0 then 512 else if k == 1 then 513 else if k == 2 then (data - 1) / NENTRIES + 1 else 568;
    Range(512, upTo) + if k == 4 then Range(1016, 1024) else {}
  }

  lemma KernelTablesSize(data: nat)
    requires DataPage(data)
    ensures |KernelTables(data, 0)| == 0 && 1 + |KernelTables(data, 4)| == KVMFRAMES
    ensures forall k | 0 <= k <= 4 :: |KernelTables(data, k)| <= |KernelTables(data, 4)|
    ensures forall i | i in KernelTables(data, 4) :: NENTRIES / 2 <= i
    ensures KernelTables(data, 0) == {}
  {
    hide Range;
    assert |KernelTables(data, 4)| == 64 by {
      assert KernelTables(data, 4) == Range(512, 568) + Range(1016, 1024);
      assert Range(512, 568) !! Range(1016, 1024);
      hide KernelTables;
    }
    forall k | 0 <= k <= 4
      ensures |KernelTables(data, k)| <= |KernelTables(data, 4)|
    {
      KernelTablesGrow(data, k);
    }
  }

  lemma KernelTablesGrow(data: nat, k: nat)
    requires DataPage(data) && k <= 4
    ensures |KernelTables(data, k)| <= |KernelTables(data, 4)|
  {
    hide Range;
    assert KernelTables(data, k) <= KernelTables(data, 4);
    hide KernelTables;
    SubsetCount(KernelTables(data, k), KernelTables(data, 4));
  }

  // Row k adds the tables of its own entries that no earlier row has added.
  lemma RowTables(mem: Mem, data: nat, pd: nat, k: nat)
    requires DataPage(data) && k < 4
    requires forall i: nat | i < NENTRIES :: Present(Pde(mem, pd, i)) <==> i in KernelTables(data, k)
    ensures var r := Rows(data)[k];
      && KernelTables(data, k + 1) == KernelTables(data, k) + Needs(mem, pd, r.vpn, r.vpn + r.n)
      && |KernelTables(data, k + 1)| == |KernelTables(data, k)| + |Needs(mem, pd, r.vpn, r.vpn + r.n)|
  {
    var r := Rows(data)[k];
    forall i: nat
      ensures i in KernelTables(data, k + 1) <==> i in KernelTables(data, k) || i in Needs(mem, pd, r.vpn, r.vpn + r.n)
      ensures !(i in KernelTables(data, k) && i in Needs(mem, pd, r.vpn, r.vpn + r.n))
    {
      RowTable(mem, data, pd, k, i);
    }
    hide KernelTables, Needs, Rows, Range, Pde, Present;
    DisjointSize(KernelTables(data, k), Needs(mem, pd, r.vpn, r.vpn + r.n), KernelTables(data, k + 1));
  }

  lemma DisjointSize(a: set<nat>, b: set<nat>, c: set<nat>)
    requires forall i: nat :: i in c <==> i in a || i in b
    requires forall i: nat :: !(i in a && i in b)
    ensures c == a + b && |c| == |a| + |b|
  {
    assert c == a + b;
  }

  lemma RowTable(mem: Mem, data: nat, pd: nat, k: nat, i: nat)
    requires DataPage(data) && k < 4
    requires forall j: nat | j < NENTRIES :: Present(Pde(mem, pd, j)) <==> j in KernelTables(data, k)
    ensures var r := Rows(data)[k];
      && (i in KernelTables(data, k + 1) <==> i in KernelTables(data, k) || i in Needs(mem, pd, r.vpn, r.vpn + r.n))
      && !(i in KernelTables(data, k) && i in Needs(mem, pd, r.vpn, r.vpn + r.n))
  {
    hide Pde, Present, Range, Rows, KernelTables;
    if i < NENTRIES {
      assert Present(Pde(mem, pd, i)) <==> i in KernelTables(data, k);
      RowEntries(data, k, i);
    } else {
      TablesBelow(data, k, i);
      TablesBelow(data, k + 1, i);
    }
  }

  lemma TablesBelow(data: nat, k: nat, i: nat)
    requires DataPage(data) && k <= 4 && NENTRIES <= i
    ensures i !in KernelTables(data, k)
  {
    hide Range;
  }

  lemma RowEntries(data: nat, k: nat, i: nat)
    requires DataPage(data) && k < 4 && i < NENTRIES
    ensures var r := Rows(data)[k];
      var inRow := r.vpn / NENTRIES <= i <= (r.vpn + r.n - 1) / NENTRIES;
      i in KernelTables(data, k + 1) <==> i in KernelTables(data, k) || inRow
  {
    hide Range;
  }

  // pd has the mappings and page tables of the first k rows of kmap, and no
  // others.
  ghost predicate MappedRows(mem: Mem, data: nat, pd: nat, k: nat) {
    && DataPage(data) && k <= 4
    && (forall v: nat | v < NPAGES :: Flat(mem, pd, v) == if v < RowStart(data, k) then KernelMap(data, v) else 0)
    && forall i: nat | i < NENTRIES :: Present(Pde(mem, pd, i)) <==> i in KernelTables(data, k)
  }

  lemma RowsStart(mem: Mem, data: nat, pd: nat)
    requires DataPage(data) && forall i: nat | i < NENTRIES :: !Present(Pde(mem, pd, i))
    requires forall v: nat | v < NPAGES :: Flat(mem, pd, v) == 0
    ensures MappedRows(mem, data, pd, 0) && |KernelTables(data, 0)| == 0
  {
    KernelTablesSize(data);
    hide Flat, Pde, Present, KernelTables;
  }

  lemma RowsEnd(mem: Mem, data: nat, pd: nat)
    requires MappedRows(mem, data, pd, 4)
    ensures forall v: nat | v < NPAGES :: Flat(mem, pd, v) == KernelMap(data, v)
    ensures forall i: nat | i < NENTRIES / 2 :: !Present(Pde(mem, pd, i))
  {
    KernelTablesSize(data);
    hide Flat, Pde, Present, KernelTables;
  }

  lemma RowReady(mem: Mem, data: nat, pd: nat, k: nat)
    requires MappedRows(mem, data, pd, k) && k < 4
    ensures var r := Rows(data)[k];
      && 0 < r.n && UPAGES <= r.vpn && r.vpn + r.n <= NPAGES && r.f + r.n <= NPAGES && r.perm < 0x1000
      && (forall v: nat | r.vpn <= v < r.vpn + r.n :: Flat(mem, pd, v) == 0)
      && |KernelTables(data, k + 1)| == |KernelTables(data, k)| + |Needs(mem, pd, r.vpn, r.vpn + r.n)|
  {
    RowTables(mem, data, pd, k);
    hide Flat, Pde, Present, KernelTables, Needs;
  }

  lemma RowMapped(mem1: Mem, mem: Mem, own: Owners, data: nat, pd: nat, k: nat)
    requires MappedRows(mem1, data, pd, k) && k < 4 && IsDir(own, pd)
    requires var r := Rows(data)[k];
      && SameOutside(mem1, mem, own, pd, r.vpn, r.vpn + r.n)
      && (forall v: nat | r.vpn <= v < r.vpn + r.n :: Flat(mem, pd, v) == Entry(r.f + (v - r.vpn), OrP(r.perm)))
      && TablesAdded(mem1, mem, pd, Needs(mem1, pd, r.vpn, r.vpn + r.n))
    ensures MappedRows(mem, data, pd, k + 1)
  {
    RowMap(mem1, mem, own, data, pd, k);
    RowTables(mem1, data, pd, k);
    hide Flat, Pde, Present, KernelTables, Needs, RowStart, KernelMap;
    forall i: nat | i < NENTRIES
      ensures Present(Pde(mem, pd, i)) <==> i in KernelTables(data, k + 1)
    {
      assert Present(Pde(mem1, pd, i)) <==> i in KernelTables(data, k);
    }
  }

  lemma BuildStep(mem0: Mem, own0: Owners, mem1: Mem, own1: Owners, mem: Mem, own: Owners, pd: nat, lo: nat, hi: nat)
    requires Building(mem0, own0, mem1, own1, pd) && IsDir(own, pd) && Spaced(own1, own, pd)
    requires SameOutside(mem1, mem, own, pd, lo, hi) && SameData(mem1, mem, own1)
    ensures Building(mem0, own0, mem, own, pd)
  {
    hide Flat;
    forall d: nat, v: nat | IsDir(own0, d) && v < NPAGES
      ensures Flat(mem, d, v) == Flat(mem0, d, v)
    {
      assert Flat(mem1, d, v) == Flat(mem0, d, v);
    }
  }

  // freevm of the new address space gives back exactly what it is made of.
  lemma BuildUndo(mem0: Mem, own0: Owners, mem1: Mem, own1: Owners, mem: Mem, own: Owners, pd: nat)
    requires Building(mem0, own0, mem1, own1, pd) && Without(own1, own, pd)
    requires SameMaps(mem1, mem, own) && SameData(mem1, mem, own)
    ensures own == own0 && SameMaps(mem0, mem, own0) && SameData(mem0, mem, own0)
  {
    hide Flat;
    forall d: nat, v: nat | IsDir(own0, d) && v < NPAGES
      ensures Flat(mem, d, v) == Flat(mem0, d, v)
    {
      assert Flat(mem1, d, v) == Flat(mem0, d, v);
    }
  }

  lemma RowMap(mem1: Mem, mem: Mem, own: Owners, data: nat, pd: nat, k: nat)
    requires DataPage(data) && k < 4 && IsDir(own, pd)
    requires forall v: nat | v < NPAGES :: Flat(mem1, pd, v) == if v < RowStart(data, k) then KernelMap(data, v) else 0
    requires var r := Rows(data)[k];
      && SameOutside(mem1, mem, own, pd, r.vpn, r.vpn + r.n)
      && forall v: nat | r.vpn <= v < r.vpn + r.n :: Flat(mem, pd, v) == Entry(r.f + (v - r.vpn), OrP(r.perm))
    ensures forall v: nat | v < NPAGES :: Flat(mem, pd, v) == if v < RowStart(data, k + 1) then KernelMap(data, v) else 0
  {
    hide Flat, Entry;
    forall v: nat | v < NPAGES
      ensures Flat(mem, pd, v) == if v < RowStart(data, k + 1) then KernelMap(data, v) else 0
    {
      var r := Rows(data)[k];
      if !(r.vpn <= v < r.vpn + r.n) { assert Flat(mem, pd, v) == Flat(mem1, pd, v); }
    }
  }

  // Page v of d is a copy of page v of pd, in a frame that was not in use.
  ghost predicate CopyOf(mem0: Mem, own0: Owners, mem: Mem, own: Owners, pd: nat, d: nat, v: nat)
    requires v < NPAGES
  {
    var f0, f := Frame(Flat(mem0, pd, v)), Frame(Flat(mem, d, v));
    && Present(Flat(mem, d, v)) && Flags(Flat(mem, d, v)) == Flags(Flat(mem0, pd, v))
    && f !in own0 && f in own && own[f] == User(d, v)
    && f0 in mem0 && f in mem && mem[f] == mem0[f0]
  }

  // The frame and flags of a present user page.
  lemma PageOf(mem: Mem, own: Owners, pd: nat, v: nat)
    requires OwnInv(mem, own) && IsDir(own, pd) && v < UPAGES && Flat(mem, pd, v) != 0
    ensures Present(Pde(mem, pd, v / NENTRIES))
    ensures var t := Frame(Pde(mem, pd, v / NENTRIES)); t in mem && mem[t][v % NENTRIES] == Flat(mem, pd, v)
    ensures var w := Flat(mem, pd, v);
      && Frame(w) in own && own[Frame(w)] == User(pd, v) && Frame(w) in mem && Flags(w) % 2 == 1 && Flags(w) < 0x1000
  {
    OwnUser(mem, own, pd, v);
    TableHeld(mem, own, pd, v / NENTRIES);
    assert Present(Flat(mem, pd, v));
    FlagsOdd(Flat(mem, pd, v));
  }

  lemma FlagsOdd(w: Word32)
    requires Present(w)
    ensures Flags(w) % 2 == 1 && Flags(w) < 0x1000
  {
  }

  lemma MapsOutside(mem0: Mem, mem: Mem, own: Owners, d: nat, v: nat)
    requires SameMaps(mem0, mem, own)
    ensures SameOutside(mem0, mem, own, d, v, v + 1)
  {
  }

  lemma MapsAt(mem0: Mem, mem: Mem, own: Owners, d: nat, v: nat)
    requires SameMaps(mem0, mem, own) && IsDir(own, d) && v < NPAGES
    ensures Flat(mem, d, v) == Flat(mem0, d, v)
  {
  }

  // A new address space has no page table below KERNBASE.
  lemma NeedsFresh(mem: Mem, d: nat, n: nat)
    requires n <= UPAGES && forall i: nat | i < NENTRIES / 2 :: !Present(Pde(mem, d, i))
    ensures |Needs(mem, d, 0, n)| == (n + NENTRIES - 1) / NENTRIES
  {
    var k := (n + NENTRIES - 1) / NENTRIES;
    hide Pde, Present;
    assert Needs(mem, d, 0, n) == Range(0, k);
  }

  lemma FillData(mem: Mem, own: Owners, f: nat, page: Page)
    requires f !in own
    ensures SameData(mem, mem[f := page], own)
  {
  }

  lemma DataTrans(mem0: Mem, mem1: Mem, mem2: Mem, own0: Owners, own1: Owners)
    requires SameData(mem0, mem1, own0) && SameData(mem1, mem2, own1)
    requires forall g | g in own0 :: g in own1 && own1[g] == own0[g]
    ensures SameData(mem0, mem2, own0)
  {
  }

  // After a failed mapping of the frame f at page v of d, kfree of f leaves
  // only page tables behind.
  lemma CopyFailed(mem0: Mem, own0: Owners, mem1: Mem, mem2: Mem, own2: Owners, mem: Mem, own: Owners, d: nat,
                   v: nat, f: nat)
    requires IsDir(own0, d) && f !in own0 && SameMaps(mem0, mem1, own0[f := Loose]) && SameData(mem0, mem1, own0)
    requires SameOutside(mem1, mem2, own2, d, v, v + 1) && SameData(mem1, mem2, own0[f := Loose])
    requires Grown(own0[f := Loose], own2, d, {}) && own == own2 - {f}
    requires SameMaps(mem2, mem, own) && SameData(mem2, mem, own)
    ensures IsDir(own, d) && Spaced(own0, own, d)
    ensures SameOutside(mem0, mem, own, d, v, v + 1) && SameData(mem0, mem, own0)
  {
    hide Flat, SameData;
    forall e: nat, u: nat | IsDir(own, e) && u < NPAGES && !(e == d && u == v)
      ensures Flat(mem, e, u) == Flat(mem0, e, u)
    {
      assert Flat(mem2, e, u) == Flat(mem1, e, u);
    }
    DataTrans(mem0, mem1, mem2, own0, own0[f := Loose]);
    DataTrans(mem0, mem2, mem, own0, own);
  }

  lemma CopyDone(mem0: Mem, own0: Owners, mem1: Mem, mem: Mem, own: Owners, d: nat, v: nat, f: nat)
    requires IsDir(own0, d) && f !in own0 && SameMaps(mem0, mem1, own0[f := Loose]) && SameData(mem0, mem1, own0)
    requires SameOutside(mem1, mem, own, d, v, v + 1) && SameData(mem1, mem, own0[f := Loose])
    requires Grown(own0[f := Loose], own, d, {f}) && f in own && own[f] == User(d, v)
    ensures IsDir(own, d) && Spaced(own0, own, d)
    ensures SameOutside(mem0, mem, own, d, v, v + 1) && SameData(mem0, mem, own0)
  {
    hide Flat, SameData, SameMaps, SameOutside;
    DataTrans(mem0, mem1, mem, own0, own0[f := Loose]);
    OutsideTrans(mem0, mem1, mem, own0[f := Loose], own, d, v);
  }

  lemma CopyMade(mem0: Mem, own0: Owners, mem: Mem, own: Owners, pd: nat, d: nat, v: nat, f: nat)
    requires v < UPAGES && f < NPAGES && Frame(Flat(mem0, pd, v)) in mem0 && Flags(Flat(mem0, pd, v)) % 2 == 1
    requires f !in own0 && f in own && own[f] == User(d, v)
    requires f in mem && mem[f] == mem0[Frame(Flat(mem0, pd, v))] && Flags(Flat(mem0, pd, v)) < 0x1000
    requires Flat(mem, d, v) == Entry(f, OrP(Flags(Flat(mem0, pd, v))))
    ensures CopyOf(mem0, own0, mem, own, pd, d, v)
  {
    EntryFields(f, Flags(Flat(mem0, pd, v)));
    hide Flat, Entry, Frame, Flags, Present;
  }

  lemma BuildingEnd(mem0: Mem, own0: Owners, mem: Mem, own: Owners, d: nat)
    requires Building(mem0, own0, mem, own, d)
    ensures d !in own0 && IsDir(own, d) && Spaced(own0, own, d) && SameMaps(mem0, mem, own0)
    ensures SameData(mem0, mem, own0)
    ensures forall e: nat | IsDir(own0, e) :: IsDir(own, e)
  {
  }

  // Copying page i leaves the other pages of d as they were.
  lemma CopiesKept(mem0: Mem, own0: Owners, mem1: Mem, own1: Owners, mem: Mem, own: Owners, pd: nat, d: nat, i: nat,
                   data: nat)
    requires Building(mem0, own0, mem1, own1, d) && Spaced(own1, own, d) && IsDir(own, d) && i < UPAGES
    requires OwnInv(mem0, own0) && IsDir(own0, pd) && Flat(mem0, pd, i) != 0
    requires forall v: nat | v < i :: CopyOf(mem0, own0, mem1, own1, pd, d, v)
    requires forall v: nat | i <= v < NPAGES :: Flat(mem1, d, v) == KernelMap(data, v)
    requires CopyOf(mem1, own1, mem, own, pd, d, i)
    requires SameOutside(mem1, mem, own, d, i, i + 1) && SameData(mem1, mem, own1)
    ensures forall v: nat | v < i + 1 :: CopyOf(mem0, own0, mem, own, pd, d, v)
    ensures forall v: nat | i + 1 <= v < NPAGES :: Flat(mem, d, v) == KernelMap(data, v)
  {
    PageOf(mem0, own0, pd, i);
    hide Flat, KernelMap, Frame, Flags, Present, OwnInv;
    assert Flat(mem1, pd, i) == Flat(mem0, pd, i);
    forall v: nat | v < i
      ensures CopyOf(mem0, own0, mem, own, pd, d, v)
    {
      assert CopyOf(mem0, own0, mem1, own1, pd, d, v);
      assert Flat(mem, d, v) == Flat(mem1, d, v);
    }
  }

  ghost predicate Absent(mem: Mem, pd: nat, a: nat, n: nat)
    requires a + n <= NPAGES
  {
    forall v: nat | a <= v < a + n :: Flat(mem, pd, v) == 0
  }

  // Where mmap puts n pages: at addr, or at the lowest of all places.
  ghost predicate Region(mem: Mem, pd: nat, fixed: bool, addr: nat, n: nat, a: nat) {
    && VMA_START / PGSIZE <= a && a + n <= UPAGES && Absent(mem, pd, a, n)
    && (fixed ==> PGSIZE * a == addr)
    && (!fixed ==> forall b: nat | VMA_START / PGSIZE <= b < a :: !Absent(mem, pd, b, n))
  }

  ghost predicate Placeable(nfree: nat, mem: Mem, pd: nat, fixed: bool, addr: nat, n: nat) {
    exists a: nat :: Region(mem, pd, fixed, addr, n, a) && Enough(nfree, mem, pd, a, a + n)
  }

  lemma RegionOnce(mem: Mem, pd: nat, fixed: bool, addr: nat, n: nat, a: nat)
    requires Region(mem, pd, fixed, addr, n, a)
    ensures a + n <= UPAGES && Absent(mem, pd, a, n)
    ensures forall b: nat | Region(mem, pd, fixed, addr, n, b) :: b == a
  {
    hide Absent;
  }

  // A range of n pages from addr on that lies in the mmap area, or whose end
  // goes past 2^32.
  predicate Inside(addr: nat, n: nat) { VMA_START <= addr && addr + PGSIZE * n <= VMA_END }

  predicate Wraps(addr: nat, n: nat) { addr + PGSIZE * n >= TWO32 }

  // An aligned MAP_FIXED request has one region, or none.
  lemma RegionFixed(mem: Mem, pd: nat, addr: nat, n: nat)
    requires addr % PGSIZE == 0 && 0 < n
    ensures forall a: nat :: Region(mem, pd, true, addr, n, a) <==>
      a == addr / PGSIZE && Inside(addr, n) && a + n <= UPAGES && Absent(mem, pd, a, n)
    ensures Inside(addr, n) ==> addr / PGSIZE + n <= UPAGES
  {
    hide Absent;
  }

  // The 32-bit test of a MAP_FIXED request.
  lemma FixedInRange(addr: nat, n: nat)
    requires 0 < n <= UPAGES && addr < TWO32
    ensures var accepted := !(addr < VMA_START || (addr + PGSIZE * n) % TWO32 > VMA_END);
      accepted <==> Inside(addr, n) || Wraps(addr, n)
  {
    if Wraps(addr, n) {
      assert (addr + PGSIZE * n) % TWO32 == addr + PGSIZE * n - TWO32;
    }
  }

  // How mmap ends. Wrapped: it goes on with a range whose end is past 2^32.
  datatype Ending = Refused | Mapped(addr: nat) | Panicked | Wrapped

  function PagesOf(length: int): nat { if length > 0 then PageUp(length) else 0 }

  predicate Aligned(flags: nat, addr: nat) { Fixed(flags) ==> addr % PGSIZE == 0 }

  ghost predicate Fits(nfree: nat, mem: Mem, pd: nat, flags: nat, addr: nat, n: nat) {
    n > 0 && Placeable(nfree, mem, pd, Fixed(flags), addr, n)
  }

  // MAP_FIXED at an address inside a page, for n pages of the mmap area that are
  // absent as far as mmap looks.
  ghost predicate Odd(mem: Mem, pd: nat, flags: nat, addr: nat, n: nat) {
    n > 0 && !Aligned(flags, addr) && Inside(addr, n) && Absent(mem, pd, addr / PGSIZE, n)
  }

  ghost predicate AddsExactly(mem0: Mem, mem: Mem, own: Owners, pd: nat, p: nat, n: nat) {
    && p + n <= NPAGES && SameOutside(mem0, mem, own, pd, p, p + n)
    && forall v: nat | p <= v < p + n :: Flat(mem0, pd, v) == 0 && Flat(mem, pd, v) != 0
  }

  lemma AllocatedExactly(mem0: Mem, own0: Owners, mem: Mem, own: Owners, pd: nat, p: nat, n: nat)
    requires p + n <= UPAGES && Absent(mem0, pd, p, n) && Allocated(mem0, own0, mem, own, pd, p, p + n)
    ensures AddsExactly(mem0, mem, own, pd, p, n)
  {
    AbsentZero();
    hide Flat, Entry;
    forall v: nat | p <= v < p + n
      ensures Flat(mem, pd, v) != 0
    {
      assert ZeroMapped(mem, own, pd, v);
      var f: nat :| MappedTo(mem, own, pd, v, f) && f in mem && mem[f] == ZeroPage();
      EntryFields(f, PTE_W + PTE_U + PTE_P);
    }
  }

  // ---------- MAP_FIXED at an address inside a page ----------

  // mappages(addr, PGSIZE, pa) maps two pages then: the frame f that was
  // allocated at page p, and whatever frame comes after it at page p + 1.
  ghost predicate Spilled(mem0: Mem, mem: Mem, own: Owners, pd: nat, p: nat, f: nat) {
    && IsDir(own, pd) && p + 1 < UPAGES && f < UPAGES && SameOutside(mem0, mem, own, pd, p, p + 2)
    && Flat(mem0, pd, p + 1) == 0
    && Flat(mem, pd, p) == Entry(f, PTE_W + PTE_U + PTE_P) && Flat(mem, pd, p + 1) == Entry(f + 1, PTE_W + PTE_U + PTE_P)
    && f in own && own[f] == User(pd, p)
    && !(f + 1 in own && own[f + 1] == User(pd, p + 1))
  }

  lemma SpilledWrong(mem0: Mem, mem: Mem, own: Owners, pd: nat, p: nat, f: nat)
    requires Spilled(mem0, mem, own, pd, p, f)
    ensures !OwnInv(mem, own) && !AddsExactly(mem0, mem, own, pd, p, 1)
  {
    EntryFields(f + 1, PTE_W + PTE_U + PTE_P);
    AbsentZero();
  }

  lemma SpilledOne(free: seq<nat>, mem0: Mem, mem: Mem, own: Owners, pd: nat, addr: nat, n: nat)
    requires addr / PGSIZE + 1 < NPAGES && UnalignedEnd(free, mem0, pd, addr, n).Mapped?
    requires Spilled(mem0, mem, own, pd, addr / PGSIZE, free[0])
    ensures !OwnInv(mem, own) && !AddsExactly(mem0, mem, own, pd, addr / PGSIZE, n)
  {
    SpilledWrong(mem0, mem, own, pd, addr / PGSIZE, free[0]);
    hide Needs, Flat, Spilled;
  }

  // How the loop of mmap ends for an unaligned address. A second page already
  // present is not noticed before; neither is a second round's own page.
  ghost function UnalignedEnd(free: seq<nat>, mem: Mem, pd: nat, addr: nat, n: nat): (e: Ending)
    requires addr / PGSIZE + 1 < NPAGES
    ensures !e.Wrapped? && (e.Mapped? ==> e.addr == addr && n == 1 && free != [])
  {
    var p := addr / PGSIZE;
    var frames := 1 + |Needs(mem, pd, p, p + 2)|;
    if |free| < frames then Refused
    else if Flat(mem, pd, p + 1) != 0 then Panicked                                  // panic("remap")
    else if n == 1 then Mapped(addr)
    else if |free| == frames && free[0] + 1 < PHYSTOP / PGSIZE then Refused
    else Panicked                                                                    // panic("remap") or panic("kfree")
  }

  // With two frames and a table's worth to spare, one page at VMA_START + 1 is
  // mapped, to two pages.
  lemma FirstOdd(free: seq<nat>, mem: Mem, pd: nat, data: nat)
    requires |free| >= 2 && DataPage(data)
    requires forall v: nat | 0 < v < NPAGES :: Flat(mem, pd, v) == KernelMap(data, v)
    ensures Odd(mem, pd, 12, VMA_START + 1, 1) && Flat(mem, pd, UPAGES) != 0
    ensures UnalignedEnd(free, mem, pd, VMA_START + 1, 1) == Mapped(VMA_START + 1)
  {
    var p := VMA_START / PGSIZE;
    assert Needs(mem, pd, p, p + 2) <= {p / NENTRIES};
    SubsetCount(Needs(mem, pd, p, p + 2), {p / NENTRIES});
    assert KernelMap(data, UPAGES) != 0 && KernelMap(data, p) == 0 == KernelMap(data, p + 1);
    hide Flat, Needs, KernelMap;
  }

  // What a refusal at an unaligned address leaves behind, by the number of
  // frames that were free.
  ghost predicate UnalignedLeft(free0: seq<nat>, mem0: Mem, mem: Mem, freelist: Word32, own: Owners, pd: nat, p: nat)
    requires p + 1 < UPAGES
  {
    var f := if free0 == [] then 0 else free0[0];
    if free0 == [] then SameMaps(mem0, mem, own)
    else if |free0| < 1 + |Needs(mem0, pd, p, p + 1)| then                 // page p + 1 is unmapped
      SameOutside(mem0, mem, own, pd, p + 1, p + 2) && Flat(mem, pd, p + 1) == 0 && f < UPAGES && freelist == Link(f)
    else if |free0| < 1 + |Needs(mem0, pd, p, p + 2)| then                 // page p stays mapped to a free frame
      f < UPAGES && Flat(mem, pd, p) == Entry(f, PTE_W + PTE_U + PTE_P) && freelist == Link(f)
    else                                                                   // a frame never allocated is freed
      f + 1 < UPAGES && freelist == Link(f + 1)
      && exists mem2: Mem :: Spilled(mem0, mem2, own, pd, p, f) && WrongFree(mem2, mem, pd, p, f)
  }

  // The last two stores of that roll-back: the frame after f, which may be one in
  // use, is overwritten for the free list, and the entry for page p + 1 cleared.
  ghost predicate WrongFree(mem2: Mem, mem: Mem, pd: nat, p: nat, f: nat)
    requires p + 1 < UPAGES
  {
    var t, m := Frame(Pde(mem2, pd, (p + 1) / NENTRIES)), mem2[f + 1 := JunkPage(0)];
    t in m && mem == m[t := m[t][(p + 1) % NENTRIES := 0]]
  }

  // After the first of the two pages.
  ghost predicate SecondReady(free0: seq<nat>, mem0: Mem, nfree: nat, mem: Mem, own: Owners, pd: nat, p: nat, f: nat) {
    && p + 1 < UPAGES && MappedTo(mem, own, pd, p, f) && free0 != [] && f == free0[0]
    && SameOutside(mem0, mem, own, pd, p, p + 1) && TablesAdded(mem0, mem, pd, Needs(mem0, pd, p, p + 1))
    && |free0| == 1 + |Needs(mem0, pd, p, p + 1)| + nfree
  }

  lemma SecondNeeds(free0: seq<nat>, mem0: Mem, nfree: nat, mem: Mem, own: Owners, pd: nat, p: nat, f: nat)
    requires SecondReady(free0, mem0, nfree, mem, own, pd, p, f) && IsDir(own, pd)
    ensures |Needs(mem0, pd, p, p + 2)| == |Needs(mem0, pd, p, p + 1)| + |Needs(mem, pd, p + 1, p + 2)|
    ensures Flat(mem, pd, p + 1) == Flat(mem0, pd, p + 1)
  {
    hide Flat, Needs, TablesAdded;
    NeedsNext(mem0, mem, mem, pd, p, p + 1);
  }

  lemma HeadZero(mem: Mem, head: Word32, free: seq<nat>, own: Owners)
    requires FreeInv(mem, head, free, own)
    ensures head == 0 <==> free == []
  {
  }

  lemma OwnedFrame(mem: Mem, own: Owners, f: nat)
    requires OwnInv(mem, own) && f in own
    ensures 0 < f < UPAGES
  {
  }

  // kfree of a frame that is still mapped.
  lemma Dangling(mem: Mem, own: Owners, pd: nat, p: nat, f: nat, page: Page)
    requires OwnInv(mem, own) && IsDir(own, pd) && p < UPAGES && f in own && own[f] == User(pd, p)
    ensures Flat(mem[f := page], pd, p) == Flat(mem, pd, p)
  {
    DataKeeps(mem, own, f, page);
    hide Pte, OwnInv;
  }

  lemma EndFirst(free0: seq<nat>, mem0: Mem, mem: Mem, freelist: Word32, own: Owners, pd: nat, addr: nat, n: nat)
    requires addr / PGSIZE + 1 < UPAGES && |free0| < 1 + |Needs(mem0, pd, addr / PGSIZE, addr / PGSIZE + 1)|
    requires free0 == [] ==> SameMaps(mem0, mem, own)
    requires var p := addr / PGSIZE;
      free0 != [] ==> SameOutside(mem0, mem, own, pd, p + 1, p + 2) && Flat(mem, pd, p + 1) == 0
    requires free0 != [] ==> free0[0] < UPAGES && freelist == Link(free0[0])
    ensures UnalignedEnd(free0, mem0, pd, addr, n) == Refused
    ensures UnalignedLeft(free0, mem0, mem, freelist, own, pd, addr / PGSIZE)
  {
    hide Needs, Flat, SameMaps, SameOutside;
    NeedsMore(mem0, pd, addr / PGSIZE, addr / PGSIZE + 1, addr / PGSIZE + 2);
  }

  // The store for page p + 1.
  lemma SpillStores(mem0: Mem, mem1: Mem, own0: Owners, own1: Owners, mem2: Mem, own: Owners, pd: nat, p: nat, f: nat)
    requires OwnInv(mem0, own0) && IsDir(own0, pd) && p + 1 < UPAGES && f < UPAGES && Flat(mem0, pd, p + 1) == 0
    requires SameOutside(mem0, mem1, own1, pd, p, p + 1) && MappedTo(mem1, own1, pd, p, f)
    requires OwnInv(mem2, own) && IsDir(own, pd) && SameMaps(mem1, mem2, own)
    requires Present(Pde(mem2, pd, (p + 1) / NENTRIES)) && Flat(mem2, pd, p + 1) == 0
    requires forall d: nat :: IsDir(own, d) ==> IsDir(own1, d)
    requires f in own && own[f] == User(pd, p)
    ensures Frame(Pde(mem2, pd, (p + 1) / NENTRIES)) in mem2
    ensures Spilled(mem0, WithPte(mem2, pd, p + 1, Entry(f + 1, PTE_W + PTE_U + PTE_P)), own, pd, p, f)
    ensures var m := WithPte(mem2, pd, p + 1, Entry(f + 1, PTE_W + PTE_U + PTE_P));
      Pde(m, pd, (p + 1) / NENTRIES) == Pde(mem2, pd, (p + 1) / NENTRIES)
  {
    var w := Entry(f + 1, PTE_W + PTE_U + PTE_P);
    EntryFields(f + 1, PTE_W + PTE_U + PTE_P);
    WithPteEntries(mem2, own, pd, p + 1, w);
    var mem := WithPte(mem2, pd, p + 1, w);
    assert f + 1 in own ==> RoleHeld(mem2, own, f + 1);
    AbsentZero();
    hide Pte, Pde, WithPte, OwnInv, Entry;
    forall d: nat, v: nat | IsDir(own, d) && v < NPAGES && !(d == pd && p <= v < p + 2)
      ensures Flat(mem, d, v) == Flat(mem0, d, v)
    {
      assert Flat(mem, d, v) == Flat(mem2, d, v) && Flat(mem2, d, v) == Flat(mem1, d, v);
      assert Flat(mem1, d, v) == Flat(mem0, d, v);
    }
    assert Flat(mem, pd, p) == Flat(mem2, pd, p) == Flat(mem1, pd, p);
  }

  // ---------- a process's VMAs ----------

  function FirstSlot(vmas: seq<Vma>): (k: nat)
    ensures k <= |vmas|
  {
    if vmas == [] || vmas[0].addr == 0 then 0 else 1 + FirstSlot(vmas[1..])
  }

  lemma {:induction false} FirstSlotAt(vmas: seq<Vma>, k: nat)
    requires k <= |vmas| && forall i | 0 <= i < k :: vmas[i].addr != 0
    requires k < |vmas| ==> vmas[k].addr == 0
    ensures FirstSlot(vmas) == k
  {
    if k > 0 {
      FirstSlotAt(vmas[1..], k - 1);
    }
  }

  lemma GrownSelf(own: Owners, pd: nat)
    ensures Grown(own, own, pd, {})
  {
  }

  lemma TableEntry(mem: Mem, pd: nat, v: nat)
    requires v < NPAGES && Present(Pde(mem, pd, v / NENTRIES)) && Frame(Pde(mem, pd, v / NENTRIES)) in mem
    ensures Present(mem[Frame(Pde(mem, pd, v / NENTRIES))][v % NENTRIES]) <==> Flat(mem, pd, v) != 0
  {
  }
}
