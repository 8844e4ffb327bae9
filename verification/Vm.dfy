// kalloc.c, vm.c and the mmap of proc.c over physical memory.
module VirtualMemory {
  import opened Bytes
  import opened PageTables
  import opened AddressSpaces

  class Vm {
    var mem: Mem
    var freelist: Word32          // kmem.freelist
    ghost var free: seq<nat>
    ghost var own: Owners

    ghost predicate Valid()
      reads this
    {
      FreeInv(mem, freelist, free, own) && OwnInv(mem, own)
    }

    ghost function All(): set<nat>
      reads this
    {
      Frames(free, own)
    }

    // Physical memory before kinit1: all of it in use, none of it free.
    constructor (memory: Mem)
      requires forall f | f in memory :: 0 < f < UPAGES
      ensures Valid() && mem == memory && free == [] && own == (map f | f in memory :: Loose)
      ensures All() == memory.Keys
    {
      mem, freelist, free, own := memory, 0, [], map f | f in memory :: Loose;
    }

    // freerange: every whole page between the two kernel addresses becomes
    // free, and no other.
    method FreeRange(vstart: nat, vend: nat)
      requires Valid() && KERNBASE <= vstart && vend <= KERNBASE + PHYSTOP
      requires AllLoose(own, PagesIn(vstart, vend))       // else a page is freed twice
      modifies this
      ensures Valid() && All() == old(All())
      ensures own == old(own) - PagesIn(vstart, vend) && |free| == |old(free)| + |PagesIn(vstart, vend)|
      ensures SameMaps(old(mem), mem, own) && SameData(old(mem), mem, own)
    {
      hide OwnInv, FreeInv, Flat, Frames, PagesIn, PageUp, SameMaps;
      var p := PageUp(vstart);         // page number of the address p
      SameAll(mem, own);
      PagesNext(vstart, vend, p);
      while PGSIZE * (p + 1) <= vend
        invariant PageUp(vstart) <= p && (p == PageUp(vstart) || PGSIZE * p <= vend)
        invariant Valid() && All() == old(All())
        invariant own == old(own) - PagesIn(vstart, PGSIZE * p)
        invariant |free| == |old(free)| + p - PageUp(vstart)
        invariant SameMaps(old(mem), mem, own) && SameData(old(mem), mem, own)
      {
        ghost var m1, own1 := mem, own;
        PagesNext(vstart, vend, p);
        Release(p - UPAGES);
        MapsTrans(old(mem), m1, mem, own1, own);
        p := p + 1;
      }
      PagesNext(vstart, vend, p);
    }

    // kalloc: 0, or a frame nobody uses.
    method KAlloc() returns (f: nat)
      requires Valid()
      modifies this`freelist, this`free, this`own
      ensures Valid() && All() == old(All())
      ensures f == 0 <==> old(free) == []
      ensures f == 0 ==> free == old(free) && own == old(own)
      ensures f != 0 ==> f < UPAGES && f !in old(own) && own == old(own)[f := Loose] && old(free) == [f] + free
    {
      hide Referenced, RoleHeld;
      if freelist == 0 {
        return 0;
      }
      ghost var g := free[0];
      f := (freelist - KERNBASE) / PGSIZE;
      assert f == g;
      PopKeeps(mem, freelist, free, own);
      FramesPop(free, own);
      RoleLoose(mem, own, f);
      freelist := mem[f][0];
      free := free[1..];
      own := own[f := Loose];
    }

    // kfree of a frame that its user gives up.
    method KFree(f: nat)
      requires f in own && FreeInv(mem, freelist, free, own - {f}) && 0 < f < UPAGES
      requires forall k | 0 <= k < |free| :: free[k] != f
      modifies this
      ensures own == old(own) - {f} && FreeInv(mem, freelist, free, own)
      ensures mem == old(mem)[f := JunkPage(old(freelist))] && All() == old(All())
      ensures free == [f] + old(free) && freelist == Link(f)
    {
      PushKeeps(mem, freelist, free, own - {f}, f);
      FramesPush(free, own, f);
      mem := mem[f := JunkPage(freelist)];
      freelist := Link(f);
      free := [f] + free;
      own := own - {f};
    }

    // kfree of a loose frame.
    method Release(f: nat)
      requires Valid() && f in own && own[f].Loose?
      modifies this
      ensures Valid() && All() == old(All()) && own == old(own) - {f} && free == [f] + old(free)
      ensures SameMaps(old(mem), mem, own) && SameData(old(mem), mem, own) && f < UPAGES && freelist == Link(f)
    {
      hide Referenced, RoleHeld, Pte, Pde;
      LooseKeeps(mem, own, f, JunkPage(freelist));
      FreeLess(mem, freelist, free, own, f);
      KFree(f);
    }

    // memset or memmove into a loose frame.
    method Fill(f: nat, page: Page)
      requires Valid() && f in own && own[f].Loose?
      modifies this`mem
      ensures Valid() && mem == old(mem)[f := page]
      ensures SameMaps(old(mem), mem, own)
      ensures forall d: nat, i: nat | IsDir(own, d) && i < NENTRIES :: Pde(mem, d, i) == Pde(old(mem), d, i)
    {
      hide Referenced, RoleHeld, Pte, Pde;
      DataKeeps(mem, own, f, page);
      ChainFrame(mem, mem[f := page], freelist, free);
      mem := mem[f := page];
    }

    // walkpgdir: the page table for vpn, or 0. With alloc, a missing table is
    // allocated; the flat maps do not change.
    method WalkPgdir(pd: nat, vpn: nat, alloc: bool) returns (t: nat)
      requires Valid() && IsDir(own, pd) && vpn < NPAGES
      modifies this
      ensures Valid() && All() == old(All()) && SameMaps(old(mem), mem, own) && SameData(old(mem), mem, own)
      ensures t != 0 ==> Present(Pde(mem, pd, vpn / NENTRIES)) && t == Frame(Pde(mem, pd, vpn / NENTRIES)) && t in mem
      ensures t == 0 ==> !Present(Pde(mem, pd, vpn / NENTRIES)) && (alloc ==> free == [])
      ensures !alloc || t == 0 || Present(Pde(old(mem), pd, vpn / NENTRIES)) ==>
        mem == old(mem) && own == old(own) && free == old(free)
      ensures alloc && t != 0 && !Present(Pde(old(mem), pd, vpn / NENTRIES)) ==>
        t !in old(own) && own == old(own)[t := Tab(pd, vpn / NENTRIES)] && old(free) == [t] + free
      ensures alloc && t != 0 ==> TablesAdded(old(mem), mem, pd, Needs(old(mem), pd, vpn, vpn + 1))
    {
      hide Referenced, RoleHeld, Chain, Pte, Frames;
      ghost var own0 := own;
      var i := vpn / NENTRIES;
      var pde := mem[pd][i];
      assert pde == Pde(mem, pd, i);
      if Present(pde) {
        TableHeld(mem, own, pd, i);
        return Frame(pde);
      }
      if !alloc {
        return 0;
      }
      t := KAlloc();
      if t == 0 {
        return 0;
      }
      WithTableEntries(mem, own, pd, i, t);
      WithTableKeeps(mem, own, pd, i, t);
      EntryFields(t, PTE_P + PTE_W + PTE_U);
      TableStores(mem, freelist, free, own, pd, i, t);
      FramesRole(free, own, t, Tab(pd, i));
      mem := mem[t := ZeroPage()];
      mem := mem[pd := mem[pd][i := Entry(t, PTE_P + PTE_W + PTE_U)]];
      own := own[t := Tab(pd, i)];
      assert mem == WithTable(old(mem), pd, i, t);
      assert forall d: nat :: IsDir(own, d) <==> IsDir(own0, d);
    }

    // One round of mappages: ok is false where walkpgdir runs out of memory.
    method MapPage(pd: nat, vpn: nat, f: nat, perm: nat) returns (ok: bool)
      requires Valid() && IsDir(own, pd) && vpn < NPAGES && f < NPAGES && perm < 0x1000
      requires Flat(mem, pd, vpn) == 0            // else panic("remap")
      requires vpn < UPAGES ==> f in own && own[f].Loose? && f in mem
      modifies this
      ensures Valid() && All() == old(All()) && IsDir(own, pd) && SameData(old(mem), mem, old(own))
      ensures SameOutside(old(mem), mem, own, pd, vpn, vpn + 1)
      ensures Flat(mem, pd, vpn) == if ok then Entry(f, OrP(perm)) else 0
      ensures Grown(old(own), own, pd, if ok && vpn < UPAGES then {f} else {})
      ensures ok && vpn < UPAGES ==> f in own && own[f] == User(pd, vpn) && f in mem && mem[f] == old(mem)[f]
      ensures ok <==> |old(free)| >= |Needs(old(mem), pd, vpn, vpn + 1)|
      ensures ok ==> |free| == |old(free)| - |Needs(old(mem), pd, vpn, vpn + 1)|
      ensures ok ==> TablesAdded(old(mem), mem, pd, Needs(old(mem), pd, vpn, vpn + 1))
      ensures !ok ==> mem == old(mem) && own == old(own) && free == old(free)
    {
      hide OwnInv, FreeInv, Pte, Pde, Frames, WithPte, Entry, Present, Frame, Flat, OrP;
      NeedsOne(mem, pd, vpn);
      var t := WalkPgdir(pd, vpn, true);
      if t == 0 {
        return false;
      }
      ghost var m1, own1 := mem, own;
      var w := Entry(f, OrP(perm));
      assert Flat(m1, pd, vpn) == 0;
      WithPteEntries(mem, own, pd, vpn, w);
      MapStores(mem, freelist, free, own, pd, vpn, f, OrP(perm));
      StoreIsWithPte(m1, pd, vpn, w);
      mem := mem[t := mem[t][vpn % NENTRIES := w]];
      if vpn < UPAGES {
        own := own[f := User(pd, vpn)];
      }
      OutsideTrans(old(mem), m1, mem, own1, own, pd, vpn);
      AddedSame(old(mem), m1, mem, pd, Needs(old(mem), pd, vpn, vpn + 1));
      ok := true;
    }

    // mappages of n pages to consecutive frames. On failure the first done
    // pages stay mapped.
    method MapPages(pd: nat, vpn: nat, n: nat, f: nat, perm: nat) returns (ok: bool, ghost done: nat)
      requires Valid() && IsDir(own, pd) && 0 < n && UPAGES <= vpn && vpn + n <= NPAGES
      requires f + n <= NPAGES && perm < 0x1000
      requires forall v: nat | vpn <= v < vpn + n :: Flat(mem, pd, v) == 0      // else panic("remap")
      modifies this
      ensures Valid() && All() == old(All()) && IsDir(own, pd) && SameData(old(mem), mem, old(own))
      ensures Grown(old(own), own, pd, {})
      ensures done <= n && (ok <==> done == n) && SameOutside(old(mem), mem, own, pd, vpn, vpn + done)
      ensures forall v: nat | vpn <= v < vpn + done :: Flat(mem, pd, v) == Entry(f + (v - vpn), OrP(perm))
      ensures ok <==> |old(free)| >= |Needs(old(mem), pd, vpn, vpn + n)|
      ensures ok ==> |free| == |old(free)| - |Needs(old(mem), pd, vpn, vpn + n)|
      ensures ok ==> TablesAdded(old(mem), mem, pd, Needs(old(mem), pd, vpn, vpn + n))
    {
      hide OwnInv, FreeInv, Flat, Entry, Frames, Present, Needs, TablesAdded;
      NoNeeds(mem, pd, vpn);
      done := 0;
      var k := 0;
      while k < n
        invariant 0 <= k == done <= n
        invariant Valid() && All() == old(All()) && IsDir(own, pd) && SameData(old(mem), mem, old(own))
        invariant Grown(old(own), own, pd, {})
        invariant SameOutside(old(mem), mem, own, pd, vpn, vpn + k)
        invariant forall v: nat | vpn <= v < vpn + k :: Flat(mem, pd, v) == Entry(f + (v - vpn), OrP(perm))
        invariant TablesAdded(old(mem), mem, pd, Needs(old(mem), pd, vpn, vpn + k))
        invariant |free| + |Needs(old(mem), pd, vpn, vpn + k)| == |old(free)|
      {
        assert Flat(mem, pd, vpn + k) == 0;
        ghost var m1 := mem;
        ok := MapPage(pd, vpn + k, f + k, perm);
        NeedsNext(old(mem), m1, mem, pd, vpn, vpn + k);
        if !ok {
          NeedsMore(old(mem), pd, vpn, vpn + k + 1, vpn + n);
          return;
        }
        k, done := k + 1, done + 1;
      }
      ok := true;
    }

    // The body of the deallocuvm loop for a page that has a page table.
    method DeallocPage(pd: nat, vpn: nat, t: nat)
      requires Valid() && IsDir(own, pd) && vpn < UPAGES
      requires Present(Pde(mem, pd, vpn / NENTRIES)) && t == Frame(Pde(mem, pd, vpn / NENTRIES)) && t in mem
      modifies this
      ensures Valid() && All() == old(All()) && IsDir(own, pd)
      ensures SameOutside(old(mem), mem, own, pd, vpn, vpn + 1) && Flat(mem, pd, vpn) == 0
      ensures Dropped(old(own), own, pd, vpn, vpn + 1) && SameData(old(mem), mem, own)
      ensures forall d: nat, i: nat | IsDir(own, d) && i < NENTRIES :: Pde(mem, d, i) == Pde(old(mem), d, i)
    {
      hide Referenced, RoleHeld, Chain, Frames;
      var pte := mem[t][vpn % NENTRIES];
      assert pte == Pte(mem, pd, vpn);
      hide Pte, Pde, Present;
      if Present(pte) {
        ghost var own0, f, page := own, Frame(pte), JunkPage(freelist);
        UnmapKeeps(mem, own, pd, vpn, page);
        UnmapStores(mem, freelist, free, own, pd, vpn, page);
        OwnUser(mem, own, pd, vpn);
        FreeLess(mem, freelist, free, own, Frame(pte));
        KFree(Frame(pte));        // its frame number is not 0: no panic("kfree")
        ghost var m1 := mem;
        mem := mem[t := mem[t][vpn % NENTRIES := 0]];
        assert mem == WithPte(m1, pd, vpn, 0) by { StoreIsWithPte(m1, pd, vpn, 0); }
        forall k | 0 <= k < |free|
          ensures free[k] != t
        {
          assert free[k] == if k == 0 then f else old(free)[k - 1];
        }
        ChainFrame(m1, mem, freelist, free);
        assert forall d: nat :: IsDir(own, d) <==> IsDir(own0, d);
        AbsentZero();
      } else {
        DropAbsent(mem, own, pd, vpn);
      }
    }

    // deallocuvm: unmaps and frees the present pages from PGROUNDUP(newsz) up
    // to oldsz, jumping over directory entries without a page table.
    method DeallocUvm(pd: nat, oldsz: nat, newsz: nat) returns (r: nat)
      requires Valid() && IsDir(own, pd) && oldsz <= KERNBASE
      modifies this
      ensures Valid() && All() == old(All()) && r == if newsz >= oldsz then oldsz else newsz
      ensures SameOutside(old(mem), mem, own, pd, PageUp(newsz), PageUp(oldsz))
      ensures forall v: nat | PageUp(newsz) <= v < PageUp(oldsz) :: Flat(mem, pd, v) == 0
      ensures Dropped(old(own), own, pd, PageUp(newsz), PageUp(oldsz)) && SameData(old(mem), mem, own)
      ensures forall d: nat, i: nat | IsDir(own, d) && i < NENTRIES :: Pde(mem, d, i) == Pde(old(mem), d, i)
    {
      hide OwnInv, FreeInv, Flat, Pde, Frames, Present;
      if newsz >= oldsz {
        return oldsz;
      }
      var a := PageUp(newsz);        // page number of the address a
      ghost var lo, hi := a, PageUp(oldsz);
      while PGSIZE * a < oldsz
        invariant lo <= a
        invariant Valid() && All() == old(All()) && IsDir(own, pd)
        invariant SameOutside(old(mem), mem, own, pd, lo, hi)
        invariant forall v: nat | lo <= v < a && v < hi :: Flat(mem, pd, v) == 0
        invariant Dropped(old(own), own, pd, lo, if a < hi then a else hi) && SameData(old(mem), mem, own)
        invariant forall d: nat, i: nat | IsDir(own, d) && i < NENTRIES :: Pde(mem, d, i) == Pde(old(mem), d, i)
        decreases KERNBASE - PGSIZE * a
      {
        var t := WalkPgdir(pd, a, false);
        ghost var own1, a0 := own, a;
        if t == 0 {
          NoTable(mem, pd, a);
          SkipRange(a);
          a := (a / NENTRIES + 1) * NENTRIES - 1;
          AbsentZero();
          DropNone(mem, old(own), own, pd, lo, a0, if a + 1 < hi then a + 1 else hi);
        } else {
          DeallocPage(pd, a, t);
          DropNext(old(own), own1, own, pd, lo, a);
        }
        a := a + 1;
      }
      r := newsz;
    }

    // kalloc, memset and mappages of one user page. f is 0 if there is no
    // frame; without ok a frame f is left loose for the caller to free.
    method AllocPage(pd: nat, vpn: nat) returns (ok: bool, f: nat)
      requires Valid() && IsDir(own, pd) && vpn < UPAGES && Flat(mem, pd, vpn) == 0
      modifies this
      ensures Valid() && All() == old(All()) && IsDir(own, pd) && SameData(old(mem), mem, old(own))
      ensures SameOutside(old(mem), mem, own, pd, vpn, if ok then vpn + 1 else vpn)
      ensures f == 0 ==> !ok && own == old(own) && mem == old(mem) && old(free) == [] == free
      ensures f != 0 ==> old(free) != [] && f == old(free)[0]
      ensures f != 0 ==> f !in old(own) && f in own && (if ok then own[f] == User(pd, vpn) else own[f].Loose?)
      ensures Grown(old(own), if f == 0 then own else own - {f}, pd, {})
      ensures ok ==> MappedTo(mem, own, pd, vpn, f) && f in mem && mem[f] == ZeroPage()
      ensures ok <==> |old(free)| >= 1 + |Needs(old(mem), pd, vpn, vpn + 1)|
      ensures ok ==> |free| == |old(free)| - 1 - |Needs(old(mem), pd, vpn, vpn + 1)|
      ensures ok ==> TablesAdded(old(mem), mem, pd, Needs(old(mem), pd, vpn, vpn + 1))
    {
      hide OwnInv, FreeInv, Flat, Pde, Frames, Present, Entry, Frame;
      f := KAlloc();
      if f == 0 {
        return false, 0;
      }
      Fill(f, ZeroPage());
      ghost var m1 := mem;
      ok := MapPage(pd, vpn, f, PTE_W + PTE_U);
      NeedsSame(old(mem), m1, mem, own, pd, vpn);
    }

    // The failure path: deallocuvm of all of oldsz..newsz, then kfree of the
    // frame f that could not be mapped.
    method Undo(pd: nat, newsz: nat, oldsz: nat, f: nat, ghost mem0: Mem, ghost own0: Owners, ghost a: nat)
      requires Valid() && IsDir(own, pd) && oldsz <= newsz <= KERNBASE && PageUp(oldsz) <= a <= PageUp(newsz)
      requires f != 0 ==> f in own && own[f].Loose? && f !in own0
      requires SameOutside(mem0, mem, own, pd, PageUp(oldsz), a) && SameData(mem0, mem, own0)
      requires Added(own0, if f == 0 then own else own - {f}, pd, PageUp(oldsz), a)
      requires OwnInv(mem0, own0) && forall v: nat | PageUp(oldsz) <= v < PageUp(newsz) :: Flat(mem0, pd, v) == 0
      modifies this
      ensures Valid() && All() == old(All()) && IsDir(own, pd) && SameData(mem0, mem, own0)
      ensures SameMaps(mem0, mem, own) && Grown(own0, own, pd, {})
    {
      hide OwnInv, FreeInv, Flat, Pde, Frames;
      NoOwners(mem0, own0, pd, PageUp(oldsz), PageUp(newsz));
      ghost var m1 := mem;
      var rr := DeallocUvm(pd, newsz, oldsz);
      UndoneMaps(mem0, m1, mem, own, pd, PageUp(oldsz), a, PageUp(newsz));
      if f != 0 {
        ghost var m2, own2 := mem, own;
        Release(f);
        assert SameMaps(mem0, mem, own) by { MapsTrans(mem0, m2, mem, own2, own); }
      }
    }

    // allocuvm: zeroed pages from PGROUNDUP(oldsz) up to newsz, which must be
    // unmapped. It succeeds exactly if there are frames for the pages and for
    // the missing page tables; else the flat map is as it was.
    method AllocUvm(pd: nat, oldsz: nat, newsz: nat) returns (r: nat)
      requires Valid() && IsDir(own, pd)
      requires newsz < KERNBASE ==> forall v: nat | PageUp(oldsz) <= v < PageUp(newsz) :: Flat(mem, pd, v) == 0
      modifies this
      ensures Valid() && All() == old(All()) && IsDir(own, pd) && SameData(old(mem), mem, old(own))
      ensures newsz >= KERNBASE || newsz < oldsz ==>
        r == (if newsz >= KERNBASE then 0 else oldsz) && mem == old(mem) && own == old(own)
      ensures oldsz <= newsz < KERNBASE ==>
        if Enough(|old(free)|, old(mem), pd, PageUp(oldsz), PageUp(newsz)) then
          r == newsz && Allocated(old(mem), old(own), mem, own, pd, PageUp(oldsz), PageUp(newsz))
        else r == 0 && SameMaps(old(mem), mem, own) && Grown(old(own), own, pd, {})
    {
      hide OwnInv, FreeInv, Flat, Frames, Present, Grown, AllocLoop, Needs, SameOutside, SameData, SameMaps, Allocated;
      if newsz >= KERNBASE {
        SameAll(mem, own);
        return 0;
      }
      if newsz < oldsz {
        SameAll(mem, own);
        return oldsz;
      }
      var a := PageUp(oldsz);
      ghost var hi := PageUp(newsz);
      AllocStart(mem, own, |free|, pd, a);
      while PGSIZE * a < newsz
        invariant PageUp(oldsz) <= a <= hi
        invariant Valid() && All() == old(All()) && IsDir(own, pd)
        invariant AllocLoop(old(mem), old(own), |old(free)|, mem, own, |free|, pd, PageUp(oldsz), a)
      {
        ghost var m1, own1, n1 := mem, own, |free|;
        AllocAbsent(old(mem), old(own), |old(free)|, mem, own, |free|, pd, PageUp(oldsz), a);
        var ok, f := AllocPage(pd, a);
        if !ok {
          AllocFailed(old(mem), old(own), |old(free)|, m1, own1, n1, mem, own, pd, PageUp(oldsz), a, hi, f);
          Undo(pd, newsz, oldsz, f, old(mem), old(own), a);
          return 0;
        }
        AllocNext(old(mem), old(own), |old(free)|, m1, own1, n1, mem, own, |free|, pd, PageUp(oldsz), a, f);
        a := a + 1;
      }
      AllocEnd(old(mem), old(own), |old(free)|, mem, own, |free|, pd, PageUp(oldsz), hi);
      r := newsz;
    }

    // freevm: every page, page table and the directory of pd goes back to the
    // free list, and nothing else does.
    method FreeVm(pd: nat)
      requires Valid() && IsDir(own, pd)
      modifies this
      ensures Valid() && All() == old(All()) && Without(old(own), own, pd)
      ensures SameMaps(old(mem), mem, own) && SameData(old(mem), mem, own)
    {
      hide OwnInv, FreeInv, Flat, Pte, Frame, Present, Frames, FreeLoop, SameMaps, SameData, SameOutside;
      hide Without, Dropped;
      var r := DeallocUvm(pd, KERNBASE, 0);
      ghost var m1, own1 := mem, own;
      GiveUp(old(mem), old(own), mem, own, freelist, free, pd);
      own := GivenUp(own, pd);
      for i := 0 to NENTRIES
        invariant Valid() && All() == old(All())
        invariant FreeLoop(old(mem), m1, own1, mem, own, pd, i)
      {
        ghost var m2, own2 := mem, own;
        TableOf(old(mem), m1, own1, mem, own, pd, i);
        var e := mem[pd][i];
        if Present(e) {
          Release(Frame(e));
          FreedTable(old(mem), m1, own1, m2, own2, mem, own, pd, i);
        }
      }
      ghost var m2, own2 := mem, own;
      FreeEnd(old(mem), old(own), m1, own1, mem, own, pd);
      Release(pd);
      FreedDir(old(mem), old(own), m2, own2, mem, own, pd);
    }

    // setupkvm: a new address space with the kernel's mappings only, or 0 with
    // every frame given back.
    method SetupKvm(data: nat) returns (pd: nat)
      requires Valid() && DataPage(data)
      modifies this
      ensures Valid() && All() == old(All())
      ensures pd == 0 ==> own == old(own) && SameMaps(old(mem), mem, own) && SameData(old(mem), mem, own)
      ensures pd != 0 ==> Building(old(mem), old(own), mem, own, pd)
      ensures pd != 0 ==> forall v: nat | v < NPAGES :: Flat(mem, pd, v) == KernelMap(data, v)
      ensures pd != 0 <==> |old(free)| >= KVMFRAMES
      ensures pd != 0 ==> |free| == |old(free)| - KVMFRAMES
      ensures pd != 0 ==> forall i: nat | i < NENTRIES / 2 :: !Present(Pde(mem, pd, i))
    {
      hide OwnInv, FreeInv, Flat, Frames, SameMaps, SameData, SameOutside, Building, KernelTables, Present;
      hide MappedRows, Rows;
      KernelTablesSize(data);
      pd := KAlloc();
      if pd == 0 {
        SameAll(mem, own);
        return;
      }
      Fill(pd, ZeroPage());
      NewDir(old(mem), old(own), mem, own, freelist, free, pd);
      own := own[pd := Dir];
      RowsStart(mem, data, pd);
      for k := 0 to 4
        invariant Valid() && All() == old(All()) && Building(old(mem), old(own), mem, own, pd)
        invariant MappedRows(mem, data, pd, k) && |free| + 1 + |KernelTables(data, k)| == |old(free)|
      {
        var ok := MapRow(pd, data, k, old(mem), old(own));
        if !ok {
          ghost var m3, own3 := mem, own;
          BuildingDir(old(mem), old(own), mem, own, pd);
          FreeVm(pd);
          BuildUndo(old(mem), old(own), m3, own3, mem, own, pd);
          return 0;
        }
      }
      RowsEnd(mem, data, pd);
    }

    // One row of kmap.
    method MapRow(pd: nat, data: nat, k: nat, ghost mem0: Mem, ghost own0: Owners) returns (ok: bool)
      requires Valid() && DataPage(data) && k < 4 && Building(mem0, own0, mem, own, pd) && MappedRows(mem, data, pd, k)
      modifies this
      ensures Valid() && All() == old(All()) && Building(mem0, own0, mem, own, pd)
      ensures ok <==> |old(free)| + |KernelTables(data, k)| >= |KernelTables(data, k + 1)|
      ensures ok ==> MappedRows(mem, data, pd, k + 1)
      ensures ok ==> |free| + |KernelTables(data, k + 1)| == |old(free)| + |KernelTables(data, k)|
    {
      hide OwnInv, FreeInv, Flat, Frames, SameData, SameOutside, Building, Grown, Entry, KernelTables, Present;
      hide MappedRows;
      hide Needs, TablesAdded;
      RowReady(mem, data, pd, k);
      BuildingDir(mem0, own0, mem, own, pd);
      var row := Rows(data)[k];
      ghost var done;
      ok, done := MapPages(pd, row.vpn, row.n, row.f, row.perm);
      GrownSpace(old(own), own, pd, {});
      BuildStep(mem0, own0, old(mem), old(own), mem, own, pd, row.vpn, row.vpn + done);
      if ok {
        RowMapped(old(mem), mem, own, data, pd, k);
      }
    }

    // One round of copyuvm: a fresh frame for page v of d with the contents and
    // flags of page v of pd. Without ok the frame is free again.
    method CopyPage(pd: nat, d: nat, v: nat) returns (ok: bool)
      requires Valid() && IsDir(own, pd) && IsDir(own, d) && d != pd && v < UPAGES
      requires Flat(mem, pd, v) != 0              // else panic("copyuvm: page not present")
      requires Flat(mem, d, v) == 0
      modifies this
      ensures Valid() && All() == old(All()) && IsDir(own, d) && Spaced(old(own), own, d)
      ensures SameOutside(old(mem), mem, own, d, v, v + 1) && SameData(old(mem), mem, old(own))
      ensures ok ==> CopyOf(old(mem), old(own), mem, own, pd, d, v)
      ensures ok <==> |old(free)| >= 1 + |Needs(old(mem), d, v, v + 1)|
      ensures ok ==> |free| == |old(free)| - 1 - |Needs(old(mem), d, v, v + 1)|
      ensures ok ==> TablesAdded(old(mem), mem, d, Needs(old(mem), d, v, v + 1))
    {
      hide OwnInv, FreeInv, Frames, Pte, Pde, Frame, Present, Flags, Entry, SameOutside, SameMaps, SameData, OrP, Needs;
      var t := WalkPgdir(pd, v, false);
      PageOf(mem, own, pd, v);
      var pte := mem[t][v % NENTRIES];
      var pa, flags := Frame(pte), Flags(pte);
      hide Flat;
      ghost var own0 := own;
      var f := KAlloc();
      if f == 0 {
        SameAll(mem, own);
        MapsOutside(old(mem), mem, own, d, v);
        return false;
      }
      FillData(mem, own0, f, mem[pa]);
      Fill(f, mem[pa]);
      ghost var m1 := mem;
      MapsAt(old(mem), mem, own, d, v);
      ok := MapPage(d, v, f, flags);
      NeedsSame(old(mem), m1, mem, own, d, v);
      if !ok {
        ghost var m2, own2 := mem, own;
        Release(f);
        CopyFailed(old(mem), own0, m1, m2, own2, mem, own, d, v, f);
        return;
      }
      CopyDone(old(mem), own0, m1, mem, own, d, v, f);
      CopyMade(old(mem), own0, mem, own, pd, d, v, f);
    }

    // copyuvm: an address space with the user pages below sz copied into fresh
    // frames and the kernel's mappings, or 0 with every frame given back. The
    // parent is as it was.
    method CopyUvm(pd: nat, sz: nat, data: nat) returns (d: nat)
      requires Valid() && IsDir(own, pd) && sz <= KERNBASE && DataPage(data)
      requires forall v: nat | v < PageUp(sz) :: Flat(mem, pd, v) != 0
      modifies this
      ensures Valid() && All() == old(All())
      ensures SameMaps(old(mem), mem, old(own)) && SameData(old(mem), mem, old(own))
      ensures d == 0 ==> own == old(own)
      ensures d != 0 ==> d !in old(own) && IsDir(own, d) && Spaced(old(own), own, d)
      ensures d != 0 ==> forall v: nat | v < PageUp(sz) :: CopyOf(old(mem), old(own), mem, own, pd, d, v)
      ensures d != 0 ==> forall v: nat | PageUp(sz) <= v < NPAGES :: Flat(mem, d, v) == KernelMap(data, v)
      ensures d != 0 <==> |old(free)| >= KVMFRAMES + PageUp(sz) + (PageUp(sz) + NENTRIES - 1) / NENTRIES
    {
      hide OwnInv, FreeInv, Flat, Frames, SameMaps, SameData, SameOutside, Building, KernelMap, CopyOf;
      hide Needs, TablesAdded, Present;
      d := SetupKvm(data);
      if d == 0 {
        return;
      }
      var i := 0;                     // page number of the address i
      ghost var m0, n0 := mem, |free|;
      NoNeeds(m0, d, 0);
      NeedsFresh(m0, d, PageUp(sz));
      BuildingEnd(old(mem), old(own), mem, own, d);
      while PGSIZE * i < sz
        invariant i <= PageUp(sz) <= UPAGES
        invariant Valid() && All() == old(All()) && Building(old(mem), old(own), mem, own, d) && IsDir(own, d)
        invariant forall v: nat | v < i :: CopyOf(old(mem), old(own), mem, own, pd, d, v)
        invariant forall v: nat | i <= v < NPAGES :: Flat(mem, d, v) == KernelMap(data, v)
        invariant TablesAdded(m0, mem, d, Needs(m0, d, 0, i)) && |free| + i + |Needs(m0, d, 0, i)| == n0
      {
        ghost var m1, own1 := mem, own;
        BuildingEnd(old(mem), old(own), mem, own, d);
        MapsAt(old(mem), mem, old(own), pd, i);
        var ok := CopyPage(pd, d, i);
        NeedsNext(m0, m1, mem, d, 0, i);
        NeedsMore(m0, d, 0, i + 1, PageUp(sz));
        BuildStep(old(mem), old(own), m1, own1, mem, own, d, i, i + 1);
        if !ok {
          ghost var m2, own2 := mem, own;
          FreeVm(d);
          BuildUndo(old(mem), old(own), m2, own2, mem, own, d);
          return 0;
        }
        CopiesKept(old(mem), old(own), m1, own1, mem, own, pd, d, i, data);
        i := i + 1;
      }
      BuildingEnd(old(mem), old(own), mem, own, d);
    }

    // is_region_free, of n pages from addr's page on: whether none is present.
    // If the end goes past 2^32 it looks at none.
    method IsRegionFree(pd: nat, addr: nat, n: nat) returns (ok: bool)
      requires Valid() && IsDir(own, pd) && addr < TWO32 && n <= UPAGES
      modifies this
      ensures Valid() && mem == old(mem) && own == old(own) && free == old(free)
      ensures ok <==> Wraps(addr, n) || Absent(mem, pd, addr / PGSIZE, n)
    {
      hide OwnInv, FreeInv, Pde, Frames, Present;
      var end := (addr + PGSIZE * n) % TWO32;
      var a := addr;
      ghost var k := 0;
      while a < end
        invariant a == addr + PGSIZE * k && k <= n && (Wraps(addr, n) ==> k == 0)
        invariant Valid() && mem == old(mem) && own == old(own) && free == old(free)
        invariant !Wraps(addr, n) ==> Absent(mem, pd, addr / PGSIZE, k)
        decreases end - a
      {
        assert a / PGSIZE == addr / PGSIZE + k;
        var t := WalkPgdir(pd, a / PGSIZE, false);
        if t == 0 {
          NoTable(mem, pd, a / PGSIZE);
        } else {
          TableEntry(mem, pd, a / PGSIZE);
          var pte := mem[t][a / PGSIZE % NENTRIES];
          if Present(pte) {
            return false;
          }
        }
        a := a + PGSIZE;
        k := k + 1;
      }
      ok := true;
    }

    // The choice of an address in mmap: with MAP_FIXED the one asked for, else
    // the first from VMA_START on with n absent pages. It never goes past
    // VMA_END, for the page at KERNBASE is present.
    method Place(pd: nat, fixed: bool, addr: nat, n: nat) returns (ok: bool, at: nat)
      requires Valid() && IsDir(own, pd) && Flat(mem, pd, UPAGES) != 0
      requires 0 < n <= UPAGES && addr < TWO32
      modifies this
      ensures Valid() && mem == old(mem) && own == old(own) && free == old(free) && at < TWO32
      ensures fixed ==> at == addr
      ensures fixed ==> (ok <==> Wraps(addr, n) || (Inside(addr, n) && Absent(mem, pd, addr / PGSIZE, n)))
      ensures !fixed && ok ==> at % PGSIZE == 0 && Region(mem, pd, false, addr, n, at / PGSIZE)
      ensures !fixed && !ok ==> forall b :: !Region(mem, pd, false, addr, n, b)
    {
      hide OwnInv, FreeInv, Flat;
      if fixed {
        at := addr;
        FixedInRange(addr, n);
        if addr < VMA_START || (addr + PGSIZE * n) % TWO32 > VMA_END {
          return false, at;
        }
        ok := IsRegionFree(pd, at, n);
        return;
      }
      at := VMA_START;
      while at < VMA_END
        invariant VMA_START <= at <= VMA_END && at % PGSIZE == 0
        invariant Valid() && mem == old(mem) && own == old(own) && free == old(free)
        invariant forall b: nat | VMA_START / PGSIZE <= b < at / PGSIZE :: !Absent(mem, pd, b, n)
      {
        ok := IsRegionFree(pd, at, n);
        if ok {
          return;
        }
        at := at + PGSIZE;
      }
      ok := false;
    }

    // The loop of mmap, for anonymous memory: like allocuvm for pages lo..lo+n.
    method MapRegion(pd: nat, lo: nat, n: nat) returns (ok: bool)
      requires Valid() && IsDir(own, pd) && lo + n <= UPAGES && Absent(mem, pd, lo, n)
      modifies this
      ensures Valid() && All() == old(All()) && IsDir(own, pd) && SameData(old(mem), mem, old(own))
      ensures ok <==> Enough(|old(free)|, old(mem), pd, lo, lo + n)
      ensures ok ==> Allocated(old(mem), old(own), mem, own, pd, lo, lo + n)
      ensures !ok ==> SameMaps(old(mem), mem, own) && Grown(old(own), own, pd, {})
    {
      hide OwnInv, FreeInv, Flat, Frames, Present, Grown, AllocLoop, Needs, SameOutside, SameData, SameMaps, Allocated;
      var a := lo;
      AllocStart(mem, own, |free|, pd, a);
      while a < lo + n
        invariant lo <= a <= lo + n
        invariant Valid() && All() == old(All()) && IsDir(own, pd)
        invariant AllocLoop(old(mem), old(own), |old(free)|, mem, own, |free|, pd, lo, a)
      {
        ghost var m1, own1, n1 := mem, own, |free|;
        assert Flat(old(mem), pd, a) == 0;
        AllocAbsent(old(mem), old(own), |old(free)|, mem, own, |free|, pd, lo, a);
        var f;
        ok, f := AllocPage(pd, a);
        if !ok {
          AllocFailed(old(mem), old(own), |old(free)|, m1, own1, n1, mem, own, pd, lo, a, lo + n, f);
          Undo(pd, if f == 0 then PGSIZE * a else PGSIZE * (a + 1), PGSIZE * lo, f, old(mem), old(own), a);
          return;
        }
        AllocNext(old(mem), old(own), |old(free)|, m1, own1, n1, mem, own, |free|, pd, lo, a, f);
        a := a + 1;
      }
      AllocEnd(old(mem), old(own), |old(free)|, mem, own, |free|, pd, lo, lo + n);
      ok := true;
    }

    // That loop at an address inside a page: mappages maps the page after it as
    // well, to the frame after the one allocated.
    method MapUnaligned(pd: nat, addr: nat, n: nat) returns (res: Ending)
      requires Valid() && IsDir(own, pd) && addr % PGSIZE != 0 && 0 < n && Inside(addr, n)
      requires Absent(mem, pd, addr / PGSIZE, n)
      modifies this
      ensures res == UnalignedEnd(old(free), old(mem), pd, addr, n)
      ensures res.Mapped? ==> Spilled(old(mem), mem, own, pd, addr / PGSIZE, old(free)[0])
      ensures res.Refused? ==> UnalignedLeft(old(free), old(mem), mem, freelist, own, pd, addr / PGSIZE)
    {
      hide OwnInv, FreeInv, Flat, Frames, Present, Grown, Needs, SameOutside, SameData, Pde, Pte, TablesAdded;
      hide Entry, UnalignedLeft, UnalignedEnd;
      var p := addr / PGSIZE;
      NeedsMore(mem, pd, p, p + 1, p + 2);
      var ok, f := AllocPage(pd, p);
      if !ok {
        if f != 0 {
          Unspill(pd, addr, f, old(mem));
        } else {
          SameAll(mem, own);
        }
        res := Refused;
        EndFirst(old(free), old(mem), mem, freelist, own, pd, addr, n);
      } else {
        res := MapSecond(pd, addr, n, f, old(free), old(mem), old(own));
      }
    }

    // The roll-back when page addr / PGSIZE got no page table: deallocuvm looks
    // at the page after it.
    method Unspill(pd: nat, addr: nat, f: nat, ghost mem0: Mem)
      requires Valid() && IsDir(own, pd) && addr % PGSIZE != 0 && addr + PGSIZE <= KERNBASE && f in own && own[f].Loose?
      requires SameOutside(mem0, mem, own, pd, addr / PGSIZE, addr / PGSIZE)
      modifies this
      ensures SameOutside(mem0, mem, own, pd, addr / PGSIZE + 1, addr / PGSIZE + 2)
      ensures IsDir(own, pd) && Flat(mem, pd, addr / PGSIZE + 1) == 0 && f < UPAGES && freelist == Link(f)
    {
      hide OwnInv, FreeInv, Flat, Frames, Pde;
      assert PageUp(addr) == addr / PGSIZE + 1 && PageUp(addr + PGSIZE) == addr / PGSIZE + 2;
      hide PageUp;
      ghost var m1 := mem;
      var r := DeallocUvm(pd, addr + PGSIZE, addr);
      ghost var m2 := mem;
      Release(f);
      forall d: nat, v: nat | IsDir(own, d) && v < NPAGES && !(d == pd && addr / PGSIZE + 1 <= v < addr / PGSIZE + 2)
        ensures Flat(mem, d, v) == Flat(mem0, d, v)
      {
        assert Flat(mem, d, v) == Flat(m2, d, v) && Flat(m2, d, v) == Flat(m1, d, v) && Flat(m1, d, v) == Flat(mem0, d, v);
      }
    }

    // The roll-back when page addr / PGSIZE is mapped and the next got no page
    // table: deallocuvm skips the mapped page, and kfree frees its frame.
    method LeaveDangling(pd: nat, addr: nat, f: nat)
      requires Valid() && IsDir(own, pd) && addr % PGSIZE != 0 && addr + PGSIZE <= KERNBASE
      requires MappedTo(mem, own, pd, addr / PGSIZE, f)
      modifies this
      ensures f < UPAGES && freelist == Link(f)
      ensures Flat(mem, pd, addr / PGSIZE) == Entry(f, PTE_W + PTE_U + PTE_P)
    {
      hide OwnInv, FreeInv, Flat, Frames, Pde, Entry;
      assert PageUp(addr) == addr / PGSIZE + 1 && PageUp(addr + PGSIZE) == addr / PGSIZE + 2;
      hide PageUp;
      var r := DeallocUvm(pd, addr + PGSIZE, addr);
      OwnedFrame(mem, own, f);
      FreeLess(mem, freelist, free, own, f);
      Dangling(mem, own, pd, addr / PGSIZE, f, JunkPage(freelist));
      KFree(f);
    }

    // The second page of mappages, and what follows in mmap.
    method MapSecond(pd: nat, addr: nat, n: nat, f: nat, ghost free0: seq<nat>, ghost mem0: Mem, ghost own0: Owners)
      returns (res: Ending)
      requires Valid() && IsDir(own, pd) && addr % PGSIZE != 0 && 0 < n && Inside(addr, n)
      requires OwnInv(mem0, own0) && IsDir(own0, pd) && Absent(mem0, pd, addr / PGSIZE, n)
      requires SecondReady(free0, mem0, |free|, mem, own, pd, addr / PGSIZE, f)
      modifies this
      ensures res == UnalignedEnd(free0, mem0, pd, addr, n)
      ensures res.Mapped? ==> Spilled(mem0, mem, own, pd, addr / PGSIZE, f)
      ensures res.Refused? ==> UnalignedLeft(free0, mem0, mem, freelist, own, pd, addr / PGSIZE)
    {
      hide OwnInv, FreeInv, Flat, Frames, Present, Needs, SameOutside, SameData, SameMaps, Pde, Pte, TablesAdded, Entry;
      hide Spilled;
      var p := addr / PGSIZE;
      ghost var m1, own1, n1 := mem, own, |free|;
      NeedsOne(m1, pd, p + 1);
      SecondNeeds(free0, mem0, n1, m1, own1, pd, p, f);
      OwnedFrame(mem, own, f);
      var t := WalkPgdir(pd, p + 1, true);
      if t == 0 {
        LeaveDangling(pd, addr, f);
        return Refused;
      }
      var pte := mem[t][(p + 1) % NENTRIES];
      TableEntry(mem, pd, p + 1);
      assert Flat(mem, pd, p + 1) == Flat(mem0, pd, p + 1) by { MapsAt(m1, mem, own, pd, p + 1); }
      if Present(pte) {
        return Panicked;
      }
      HeadZero(mem, freelist, free, own);
      SpillStores(mem0, m1, own0, own1, mem, own, pd, p, f);
      StoreIsWithPte(mem, pd, p + 1, Entry(f + 1, PTE_W + PTE_U + PTE_P));
      mem := mem[t := mem[t][(p + 1) % NENTRIES := Entry(f + 1, PTE_W + PTE_U + PTE_P)]];
      if n == 1 {
        return Mapped(addr);
      }
      if freelist != 0 {
        return Panicked;              // the next round finds page p + 1 present
      }
      if f + 1 >= PHYSTOP / PGSIZE {
        return Panicked;              // kfree: no such frame
      }
      ghost var m2 := mem;
      mem := mem[f + 1 := JunkPage(freelist)];
      freelist := Link(f + 1);
      mem := mem[t := mem[t][(p + 1) % NENTRIES := 0]];
      assert Spilled(mem0, m2, own, pd, p, f) && WrongFree(m2, mem, pd, p, f);
      res := Refused;
    }

    // mmap of anonymous memory. Unless MAP_FIXED gives an address inside a page
    // or a range past 2^32, it succeeds exactly if there are a region, a VMA slot
    // and enough frames; else the flat map and the VMAs are as they were. Past
    // 2^32 it is not followed.
    method Mmap(pd: nat, vmas: array<Vma>, addr: nat, length: int, prot: int, flags: nat, fd: int, offset: int)
      returns (res: Ending)
      requires Valid() && IsDir(own, pd) && Flat(mem, pd, UPAGES) != 0 && vmas.Length == NVMA
      requires addr < TWO32 && length < TWO32 / 2 && Anonymous(flags)
      modifies this, vmas
      ensures res.Wrapped? <==>
        (length > 0 && FirstSlot(old(vmas[..])) < NVMA && Fixed(flags) && Wraps(addr, PagesOf(length)))
      ensures Aligned(flags, addr) && !res.Wrapped? ==>
        (Valid() && All() == old(All()) && IsDir(own, pd) && SameData(old(mem), mem, old(own)) && !res.Panicked?)
      ensures Aligned(flags, addr) && !res.Wrapped? ==>
        (res.Mapped? <==> Fits(|old(free)|, old(mem), pd, flags, addr, PagesOf(length)) && FirstSlot(old(vmas[..])) < NVMA)
      ensures Aligned(flags, addr) && res.Refused? ==> SameMaps(old(mem), mem, own) && Grown(old(own), own, pd, {})
      ensures Aligned(flags, addr) && res.Mapped? ==>
        (res.addr % PGSIZE == 0 && Region(old(mem), pd, Fixed(flags), addr, PagesOf(length), res.addr / PGSIZE) &&
         Allocated(old(mem), old(own), mem, own, pd, res.addr / PGSIZE, res.addr / PGSIZE + PagesOf(length)))
      ensures Odd(old(mem), pd, flags, addr, PagesOf(length)) && FirstSlot(old(vmas[..])) < NVMA ==>
        res == UnalignedEnd(old(free), old(mem), pd, addr, PagesOf(length))
      ensures Odd(old(mem), pd, flags, addr, PagesOf(length)) && FirstSlot(old(vmas[..])) < NVMA && res.Refused? ==>
        UnalignedLeft(old(free), old(mem), mem, freelist, own, pd, addr / PGSIZE)
      ensures !Aligned(flags, addr) && res.Mapped? ==>
        old(free) != [] && Spilled(old(mem), mem, own, pd, addr / PGSIZE, old(free)[0])
      ensures !Aligned(flags, addr) && !Odd(old(mem), pd, flags, addr, PagesOf(length)) && !res.Wrapped? ==>
        (res.Refused? && mem == old(mem) && own == old(own) && free == old(free))
      ensures res.Mapped? ==> (Valid() <==> Aligned(flags, addr))
      ensures res.Mapped? ==>
        (AddsExactly(old(mem), mem, own, pd, res.addr / PGSIZE, PagesOf(length)) <==> Aligned(flags, addr))
      ensures res.Mapped? ==> FirstSlot(old(vmas[..])) < NVMA
      ensures res.Mapped? ==>
        vmas[..] == old(vmas[..])[FirstSlot(old(vmas[..])) := Vma(res.addr, res.addr + length, prot, flags, fd, offset, true)]
      ensures !res.Mapped? ==> vmas[..] == old(vmas[..])
    {
      hide OwnInv, FreeInv, Flat, Frames, SameData, SameMaps, Grown, Allocated, Enough, Spilled, AddsExactly;
      hide UnalignedEnd;
      hide Absent, UnalignedLeft, Region;
      SameAll(mem, own);
      GrownSelf(own, pd);
      if length <= 0 {
        return Refused;
      }
      var n := PageUp(length);
      if addr % PGSIZE == 0 { RegionFixed(mem, pd, addr, n); }
      var ok, a := Place(pd, Fixed(flags), addr, n);
      if !ok {
        return Refused;
      }
      var j := 0;
      while j < NVMA && vmas[j].addr != 0
        invariant 0 <= j <= NVMA
        invariant forall i | 0 <= i < j :: vmas[i].addr != 0
      {
        j := j + 1;
      }
      FirstSlotAt(vmas[..], j);
      if j == NVMA {
        return Refused;
      }
      if Fixed(flags) && Wraps(addr, n) {
        return Wrapped;
      }
      if a % PGSIZE == 0 {
        RegionOnce(mem, pd, Fixed(flags), addr, n, a / PGSIZE);
        ok := MapRegion(pd, a / PGSIZE, n);
        res := if ok then Mapped(a) else Refused;
        if ok { AllocatedExactly(old(mem), old(own), mem, own, pd, a / PGSIZE, n); }
      } else {
        res := MapUnaligned(pd, a, n);
        if res.Mapped? { SpilledOne(old(free), old(mem), mem, own, pd, a, n); }
      }
      if res.Mapped? {
        vmas[j] := Vma(a, a + length, prot, flags, fd, offset, true);
      }
    }
  }

  // main, with all memory after the kernel: kinit1, kvmalloc, kinit2. Every
  // frame is then free or part of the kernel's address space.
  method KInit(memory: Mem, end: nat, data: nat) returns (vm: Vm, kpgdir: nat)
    requires KernelEnd(end) && DataPage(data) && memory.Keys == PagesIn(end, TOP)
    ensures fresh(vm) && vm.Valid() && vm.All() == PagesIn(end, TOP) && |vm.free| >= 0xDC00
    ensures IsDir(vm.own, kpgdir) && Spaced(map[], vm.own, kpgdir)
    ensures forall v: nat | v < NPAGES :: Flat(vm.mem, kpgdir, v) == KernelMap(data, v)
  {
    hide OwnInv, FreeInv, Flat, Frames, SameMaps, SameData, SameOutside, Present, PagesIn, PageUp, KernelMap;
    KernelPages(end);
    vm := new Vm(memory);
    vm.FreeRange(end, FOURMB);
    ghost var m0, own0 := vm.mem, vm.own;
    assert own0.Keys == PagesIn(FOURMB, TOP) && AllLoose(own0, PagesIn(FOURMB, TOP));
    kpgdir := vm.SetupKvm(data);
    ghost var m1, own1 := vm.mem, vm.own;
    vm.FreeRange(FOURMB, TOP);
    MapsAre(m1, vm.mem, vm.own, kpgdir, data);
  }

  lemma MapsAre(mem0: Mem, mem: Mem, own: Owners, pd: nat, data: nat)
    requires SameMaps(mem0, mem, own) && IsDir(own, pd)
    requires forall v: nat | v < NPAGES :: Flat(mem0, pd, v) == KernelMap(data, v)
    ensures forall v: nat | v < NPAGES :: Flat(mem, pd, v) == KernelMap(data, v)
  {
    hide Flat;
  }

  // userinit: a new address space with the kernel's mappings and one user page.
  method UserInit(vm: Vm, data: nat) returns (pd: nat)
    requires vm.Valid() && DataPage(data) && |vm.free| >= KVMFRAMES + 2
    modifies vm
    ensures vm.Valid() && vm.All() == old(vm.All()) && |vm.free| >= old(|vm.free|) - KVMFRAMES - 2
    ensures Building(old(vm.mem), old(vm.own), vm.mem, vm.own, pd) && IsDir(vm.own, pd)
    ensures Flat(vm.mem, pd, 0) != 0
    ensures forall v: nat | 0 < v < NPAGES :: Flat(vm.mem, pd, v) == KernelMap(data, v)
  {
    hide OwnInv, FreeInv, Flat, Frames, SameMaps, SameData, SameOutside, Present, Building, Needs, KernelMap, Entry;
    pd := vm.SetupKvm(data);
    ghost var m1, own1 := vm.mem, vm.own;
    BuildingDir(old(vm.mem), old(vm.own), m1, own1, pd);
    NeedsOne(m1, pd, 0);
    UserAbsent(m1, pd, data);
    var ok, f := vm.AllocPage(pd, 0);
    BuildStep(old(vm.mem), old(vm.own), m1, own1, vm.mem, vm.own, pd, 0, 1);
    FirstMapped(m1, vm.mem, vm.own, pd, data, f);
  }

  lemma UserAbsent(mem: Mem, pd: nat, data: nat)
    requires DataPage(data) && forall v: nat | v < NPAGES :: Flat(mem, pd, v) == KernelMap(data, v)
    ensures Flat(mem, pd, 0) == 0
  {
  }

  lemma FirstMapped(mem0: Mem, mem: Mem, own: Owners, pd: nat, data: nat, f: nat)
    requires SameOutside(mem0, mem, own, pd, 0, 1) && IsDir(own, pd) && MappedTo(mem, own, pd, 0, f)
    requires forall v: nat | v < NPAGES :: Flat(mem0, pd, v) == KernelMap(data, v)
    ensures Flat(mem, pd, 0) != 0
    ensures forall v: nat | 0 < v < NPAGES :: Flat(mem, pd, v) == KernelMap(data, v)
  {
    AbsentZero();
    hide Flat;
  }

  // main, then fork of the first process: three address spaces.
  method Boot(memory: Mem, end: nat, data: nat) returns (vm: Vm, kpgdir: nat, pd: nat, child: nat)
    requires KernelEnd(end) && DataPage(data) && memory.Keys == PagesIn(end, TOP)
    ensures vm.Valid() && vm.All() == PagesIn(end, TOP)
    ensures IsDir(vm.own, kpgdir) && IsDir(vm.own, pd) && IsDir(vm.own, child)
    ensures kpgdir != pd && kpgdir != child && pd != child
    ensures forall v: nat | v < NPAGES :: Flat(vm.mem, kpgdir, v) == KernelMap(data, v)
    ensures forall v: nat | 0 < v < NPAGES :: Flat(vm.mem, pd, v) == Flat(vm.mem, child, v) == KernelMap(data, v)
    ensures Flat(vm.mem, pd, 0) != 0 && Flat(vm.mem, child, 0) != 0 && Flat(vm.mem, pd, UPAGES) != 0
  {
    hide OwnInv, FreeInv, Flat, Frames, SameData, Present, PagesIn, KernelMap, KernelEnd, Building, CopyOf, Spaced;
    vm, kpgdir := KInit(memory, end, data);
    ghost var m1, own1 := vm.mem, vm.own;
    pd := UserInit(vm, data);
    BuildingEnd(m1, own1, vm.mem, vm.own, pd);
    ghost var m2, own2 := vm.mem, vm.own;
    child := vm.CopyUvm(pd, 1, data);
    CopiedPage(m2, own2, vm.mem, vm.own, pd, child);
    KernelMapped(data);
  }

  // The page at KERNBASE is present in every address space, as mmap relies on.
  lemma KernelMapped(data: nat)
    requires DataPage(data)
    ensures KernelMap(data, UPAGES) != 0
  {
  }

  lemma CopiedPage(mem0: Mem, own0: Owners, mem: Mem, own: Owners, pd: nat, d: nat)
    requires forall v: nat | v < 1 :: CopyOf(mem0, own0, mem, own, pd, d, v)
    requires Spaced(own0, own, d)
    ensures Flat(mem, d, 0) != 0 && forall e: nat | IsDir(own0, e) :: IsDir(own, e)
  {
    assert CopyOf(mem0, own0, mem, own, pd, d, 0);
  }

  // MAP_FIXED one byte past VMA_START, for one page, right after boot: mmap
  // succeeds, and the process sees a frame nobody allocated to it.
  method MmapSpills(memory: Mem, end: nat, data: nat) returns (vm: Vm, pd: nat, ghost f: nat)
    requires KernelEnd(end) && DataPage(data) && memory.Keys == PagesIn(end, TOP)
    ensures !vm.Valid() && f < NPAGES && !(f in vm.own && vm.own[f] == User(pd, VMA_START / PGSIZE + 1))
    ensures Flat(vm.mem, pd, VMA_START / PGSIZE + 1) == Entry(f, PTE_W + PTE_U + PTE_P)
  {
    hide OwnInv, FreeInv, Flat, Frames, PagesIn, KernelMap, KernelEnd, Building, Spaced, Entry, Odd, UnalignedEnd;
    hide FirstSlot, AddsExactly;
    var kpgdir;
    vm, kpgdir := KInit(memory, end, data);
    pd := UserInit(vm, data);
    FirstOdd(vm.free, vm.mem, pd, data);
    f := vm.free[0] + 1;
    var vmas := new Vma[NVMA](_ => Vma(0, 0, 0, 0, 0, 0, false));
    FirstSlotAt(vmas[..], 0);
    var res := vm.Mmap(pd, vmas, VMA_START + 1, 1, 0, 12, 0, 0);
  }
}
