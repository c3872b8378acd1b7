/** vmalloc and vfree as they run: a descriptor list relinked in place, pages mapped and unmapped one by one. */
module VirtualAllocator {
  import opened Basics
  import opened PageTables
  import opened PageMapping
  import opened VmallocPages
  import opened VmallocRuns
  import VmallocElsewhere
  import VmallocSteps
  import opened VmallocArena
  import R = Regions
  import opened RegionLists
  import opened Sequences
  import AddressSpaces
  import PM = PhysicalMemory
  import VM = VirtualMemory

  /** The next turn of vmalloc's loop: the lowest free frame may be mapped to the next page. */
  lemma NextTurn(v: Vm, w: Vm, taken: seq<nat>, root: nat, p: nat, m: nat, n: nat)
    requires CanMapRange(v, root, p, n) && m < n && (w, taken) == MapRange(v, root, p, m)
    ensures CanMapOne(w, root, p + m)
    ensures var (w', f) := MapOne(w, root, p + m); MapRange(v, root, p, m + 1) == (w', taken + [f])
  {
    hide CanMapRange, MapRange, RangeMapped, FramesTaken, VmInv, Translate, CanMap, CanMapOne, MapOne, PageMapping.MapPage, PageVA, Lowest;
    ShorterBy(v, root, p, m + 1, n);
    ShorterRange(v, root, p, m + 1);
    MapRangeSound(v, root, p, m);
    MapRangeTurn(v, root, p, m + 1);
    NextMappable(v, w, root, p, m, taken);
  }

  lemma MapOneIs(v: Vm, root: nat, p: nat)
    requires CanMapOne(v, root, p)
    ensures v.free != {} && VmInv(v)
    ensures var f := Lowest(v.free);
            && CanMap(v.(free := v.free - {f}), root, f, PageVA(p), Small, WRITABLE)
            && MapOne(v, root, p) == (PageMapping.MapPage(v.(free := v.free - {f}), root, f, PageVA(p), Small, WRITABLE), f)
  {
    hide VmInv, Translate, CanMap, PageMapping.MapPage, PageVA;
    TakenFrame(v, root, p);
  }

  lemma ShorterBy(v: Vm, root: nat, p: nat, m: nat, n: nat)
    requires CanMapRange(v, root, p, n) && m <= n
    ensures CanMapRange(v, root, p, m)
  {
    hide VmInv, Translate, FreshTables, Missing;
    TablesGrow(v, root, p, m, n);
  }

  lemma {:induction false} TablesGrow(v: Vm, root: nat, p: nat, m: nat, n: nat)
    requires m <= n
    ensures Tables(v, root, p, m) <= Tables(v, root, p, n)
    decreases n
  {
    hide FreshTables, Missing;
    if m < n { TablesGrow(v, root, p, m, n - 1); }
  }

  /** What vmalloc is about to do to an address space and its list. */
  lemma NewRegion(a: Arena, size: nat)
    requires ArenaInv(a) && CanVmalloc(a, size)
    ensures var r := Placed(a, size);
            && r.base % PAGE_SIZE == 0 && r.size == size <= MAX_SIZE
            && R.Insert(R.Up, a.regions, size)[R.Place(R.Up, a.regions, size)] == r
            && CanMapRange(a.vm, a.root, r.base / PAGE_SIZE, Pages(size)) && ArenaInv(Vmalloc(a, size)) && VmInv(Vmalloc(a, size).vm)
            && forall x :: x in Vmalloc(a, size).frames[r.base] ==> x in a.vm.free
    ensures var r := Placed(a, size);
            var (w, fs) := MapRange(a.vm, a.root, r.base / PAGE_SIZE, Pages(size));
            Vmalloc(a, size) == Arena(w, a.root, R.Insert(R.Up, a.regions, size), a.frames[r.base := fs], a.owners[r.base := a.root])
  {
    hide ArenaInv, CanVmalloc, CanMapRange, VmInv, MapRange, R.Room, Translate, PageVA, R.Stop, R.Insert, R.Place, RangeMapped, Distinct, FreeAccount, Placed;
    VmallocKeepsInv(a, size);
    ArenaTables(Vmalloc(a, size));
    PlacedMappable(a, size);
    InsertElements(a, size);
    var r := Placed(a, size);
    MapRangeSound(a.vm, a.root, r.base / PAGE_SIZE, Pages(size));
    SizeBound(a, size);
  }

  lemma ArenaTables(a: Arena)
    requires ArenaInv(a)
    ensures VmInv(a.vm)
  {
  }

  lemma SizeBound(a: Arena, size: nat)
    requires CanVmalloc(a, size)
    ensures 0 < size <= MAX_SIZE
  {
  }

  class VirtualAllocator {
    const vm: VM.AddressSpaceManager
    const list: RegionList
    var root: nat                 // CR3: the address space in use
    ghost var owners: map<nat, nat>
    ghost var frames: map<nat, seq<nat>>

    ghost function Abstract(): Arena
      requires list.Valid()
      reads this, vm, vm.pmm, vm.pmm.bitmap, list
    {
      Arena(vm.View(), root, list.Regions(), frames, owners)
    }

    ghost predicate Valid()
      reads this, vm, vm.pmm, vm.pmm.bitmap, list
    {
      && vm.Valid() && list.Valid() && list.d == R.Up && ArenaInv(Abstract())
      && forall b, x :: b in frames && x in frames[b] ==> x < vm.pmm.total
    }

    /** An empty list over an address space whose arena holds no page yet. */
    constructor (vm: VM.AddressSpaceManager, list: RegionList, root: nat)
      requires vm.Valid() && IsRoot(vm.View(), root) && list.Valid() && list.d == R.Up && list.ids == [] && Quiet(vm.View(), [])
      ensures Valid() && this.vm == vm && this.list == list && this.root == root && Abstract() == Arena(vm.View(), root, [], map[], map[])
    {
      hide VmInv, Translate, PageVA;
      this.vm, this.list, this.root, frames, owners := vm, list, root, map[], map[];
      new;
      assert list.Regions() == [];
    }

    /** The processor changes to another address space. */
    method SwitchTo(root': nat)
      requires Valid() && IsRoot(vm.View(), root')
      modifies this`root
      ensures Valid() && Abstract() == old(Abstract()).(root := root')
    {
      hide ArenaInv, VmInv;
      VmallocSteps.SwitchKeepsInv(Abstract(), root');
      root := root';
    }

    /** The loop of vmalloc. */
    method MapPages(base: nat, size: nat) returns (ghost taken: seq<nat>)
      requires vm.pmm.Valid() && base % PAGE_SIZE == 0 && size <= MAX_SIZE
      requires CanMapRange(vm.View(), root, base / PAGE_SIZE, Pages(size))
      modifies vm, vm.pmm.bitmap
      ensures vm.pmm.Valid() && (vm.View(), taken) == MapRange(old(vm.View()), root, base / PAGE_SIZE, Pages(size))
    {
      hide CanMapRange, MapRange, MapOne, VmInv, CanMapOne, PM.FreePages, PM.Pmm.Free, VM.AddressSpaceManager.View;
      ghost var v, p := vm.View(), base / PAGE_SIZE;
      taken := [];
      var j := 0;
      ghost var m: nat := 0;
      MapRangeTurn(v, root, p, 0);
      while j < size
        invariant m <= Pages(size) && j == m * PAGE_SIZE <= MAX_SIZE
        invariant vm.pmm.Valid() && (vm.View(), taken) == MapRange(v, root, p, m)
        decreases size - j
      {
        NextTurn(v, vm.View(), taken, root, p, m, Pages(size));
        ghost var f := MapFresh(base + j, p + m);
        taken := taken + [f];
        j, m := j + PAGE_SIZE, m + 1;
      }
    }

    /** The body of the loop: the lowest free frame is mapped to the page. */
    method MapFresh(vaddr: nat, ghost q: nat) returns (ghost f: nat)
      requires vm.pmm.Valid() && vaddr == q * PAGE_SIZE && CanMapOne(vm.View(), root, q)
      modifies vm, vm.pmm.bitmap
      ensures vm.pmm.Valid() && (vm.View(), f) == MapOne(old(vm.View()), root, q)
    {
      hide CanMap, VmInv, PageMapping.MapPage, VM.Indices, PageVA, CanMapOne, Lowest, MapOne, PM.FreePages;
      ghost var w := vm.View();
      MapOneIs(w, root, q);
      var frame := vm.pmm.AllocPage();
      f := frame / PAGE_SIZE;
      vm.LowestUnique(w.free, f);
      VM.PageIndices(q);
      vm.MapPage(root, frame, vaddr, Small, WRITABLE);
    }

    /** vmalloc: the region goes where the list places it, and each of its pages onto a fresh frame. `desc` is what
        kmalloc answers for the descriptor. */
    method Alloc(desc: Pointer, size: nat) returns (base: nat)
      requires Valid() && (desc.To? ==> desc.id in list.mem && desc.id !in list.ids)
      requires size != 0 && desc.To? ==> CanVmalloc(Abstract(), size)
      modifies this`frames, this`owners, vm, vm.pmm.bitmap, list
      ensures Valid()
      ensures size == 0 || desc.Null? ==> base == 0 && Abstract() == old(Abstract())
      ensures size != 0 && desc.To? ==> Abstract() == Vmalloc(old(Abstract()), size) && base == Placed(old(Abstract()), size).base
    {
      hide ArenaInv, CanVmalloc, CanMapRange, VmInv, MapRange, R.Room, Translate, PageVA, R.Stop, R.Insert, R.Place, Contents, PM.FreePages, Placed, OnPages, VM.AddressSpaceManager.View, Distinct, Linked, RegionList.Valid, RegionList.Regions;
      if size == 0 || desc.Null? {
        return 0;
      }
      ghost var a := Abstract();
      var x := desc.id;
      NewRegion(a, size);
      FreeBelowTotal();
      list.SetSize(x, size);
      list.Add(x);
      base := list.mem[x].base;
      ghost var taken := MapPages(base, size);
      frames, owners := frames[base := taken], owners[base := root];
    }

    lemma FreeBelowTotal()
      ensures forall x :: x in vm.View().free ==> x < vm.pmm.total
    {
    }

    /** The loop of vfree. */
    method UnmapPages(base: nat, size: nat)
      requires vm.Valid() && base % PAGE_SIZE == 0 && size <= MAX_SIZE
      requires base in frames && |frames[base]| == Pages(size) && Live(vm.View(), root, base / PAGE_SIZE, frames[base])
      requires forall x :: x in frames[base] ==> x < vm.pmm.total
      modifies vm, vm.pmm.bitmap
      ensures vm.Valid() && vm.View() == UnmapRange(old(vm.View()), root, base / PAGE_SIZE, Pages(size))
    {
      hide Live, VmInv, UnmapRange, UnmapOne, CanUnmapOne, PM.FreePages, VM.AddressSpaceManager.View;
      ghost var v, p, fs := vm.View(), base / PAGE_SIZE, frames[base];
      var i := 0;
      ghost var m: nat := 0;
      UnmapTurn(v, root, p, 0);
      while i < size
        invariant m <= Pages(size) && i == m * PAGE_SIZE <= MAX_SIZE
        invariant vm.Valid() && vm.View() == UnmapRange(v, root, p, m)
        decreases size - i
      {
        UnmapNext(v, vm.View(), root, p, m, fs);
        assert fs[m] in fs;
        UnmapAndFree(base + i, p + m, fs[m]);
        i, m := i + PAGE_SIZE, m + 1;
      }
    }

    /** The body of the loop: the page is unmapped and the frame it led to is freed. */
    method UnmapAndFree(vaddr: nat, ghost q: nat, ghost f: nat)
      requires vm.Valid() && vaddr == q * PAGE_SIZE && CanUnmapOne(vm.View(), root, q, f) && f < vm.pmm.total
      modifies vm, vm.pmm.bitmap
      ensures vm.Valid() && vm.View() == UnmapOne(old(vm.View()), root, q)
    {
      hide VmInv, VM.Indices, PageVA, CanUnmapOne, AddressSpaces.UnmapPage, UnmapOne, AddressSpaces.KeepsSlots, OneUnmapped, PM.FreePages;
      ghost var w := vm.View();
      UnmapOneIs(w, root, q, f);
      UnmapOneSound(w, root, q, f);
      VM.PageIndices(q);
      var paddr := vm.UnmapPage(root, vaddr);
      vm.pmm.FreePage(paddr);
    }

    /** vfree: nothing happens unless some region starts at `ptr`; then its pages are unmapped, their frames freed and
        the region taken off the list. */
    method Free(ptr: nat)
      requires Valid()
      requires forall k: nat :: k < |Abstract().regions| && Abstract().regions[k].base == ptr ==> CanVfree(Abstract(), k)
      modifies this`frames, this`owners, vm, vm.pmm.bitmap, list
      ensures Valid()
      ensures (forall r :: r in old(Abstract()).regions ==> r.base != ptr) ==> Abstract() == old(Abstract())
      ensures forall k: nat :: k < |old(Abstract()).regions| && old(Abstract()).regions[k].base == ptr ==> Abstract() == Vfree(old(Abstract()), k)
    {
      hide ArenaInv, VmInv, UnmapRange, Live, OnPages, Contents, Distinct, Linked, PM.FreePages;
      ghost var a := Abstract();
      var x, k := list.Find(ptr);
      if x.Null? {
        return;
      }
      OnlyBase(a, k);
      LiveHere(a, k);
      VfreeKeepsInv(a, k);
      UnmapPages(ptr, list.mem[x.id].size);
      list.Remove(x.id, k);
      frames, owners := frames - {ptr}, owners - {ptr};
    }
  }

  /** The next turn of vfree's loop. */
  lemma UnmapNext(v: Vm, w: Vm, root: nat, p: nat, m: nat, fs: seq<nat>)
    requires VmInv(v) && Live(v, root, p, fs) && m < |fs| && w == UnmapRange(v, root, p, m)
    ensures CanUnmapOne(w, root, p + m, fs[m]) && UnmapRange(v, root, p, m + 1) == UnmapOne(w, root, p + m)
  {
    hide VmInv, Live, UnmapRange, RangeUnmapped, UnmapOne, OneUnmapped, AddressSpaces.KeepsSlots, PageVA, CanUnmapOne, AddressSpaces.UnmapPage;
    UnmapRangeSound(v, root, p, m, fs);
    NextUnmappable(v, w, root, p, m, fs);
    UnmapTurn(v, root, p, m + 1);
  }

  lemma UnmapOneIs(v: Vm, root: nat, q: nat, f: nat)
    requires CanUnmapOne(v, root, q, f)
    ensures VmInv(v) && IsRoot(v, root)
    ensures AddressSpaces.UnmapPage(v, root, PageVA(q)).1 == f
    ensures UnmapOne(v, root, q) == AddressSpaces.UnmapPage(v, root, PageVA(q)).0.(free := AddressSpaces.UnmapPage(v, root, PageVA(q)).0.free + {f})
  {
    hide VmInv, PageVA, AddressSpaces.UnmapPage, Translate, PathTable;
    AddressSpaces.UnmapReturnsFrame(v, root, PageVA(q));
  }

  lemma OnlyBase(a: Arena, k: nat)
    requires ArenaInv(a) && k < |a.regions|
    ensures forall j: nat :: j < |a.regions| && a.regions[j].base == a.regions[k].base ==> j == k
  {
    forall j: nat | j < |a.regions| && a.regions[j].base == a.regions[k].base
      ensures j == k
    {
      if j != k { BesideAt(a.regions, j, k); }
    }
  }

  /** A region that can be freed is live in the current address space. */
  lemma LiveHere(a: Arena, k: nat)
    requires ArenaInv(a) && CanVfree(a, k)
    ensures var r := a.regions[k];
            && r.base % PAGE_SIZE == 0 && r.size <= MAX_SIZE && r.base in a.frames && |a.frames[r.base]| == PageCount(r)
            && Live(a.vm, a.root, FirstPage(r), a.frames[r.base])
  {
    hide RegionsOK, AllApart, Quiet, VmInv, Live, VmallocElsewhere.SharesPages;
    LiveRegion(a, k);
    VmallocElsewhere.LiveElsewhere(a.vm, a.owners[a.regions[k].base], a.root, FirstPage(a.regions[k]), a.frames[a.regions[k].base]);
  }

  lemma LiveRegion(a: Arena, k: nat)
    requires ArenaInv(a) && k < |a.regions|
    ensures var r := a.regions[k];
            && r.base % PAGE_SIZE == 0 && r.size <= MAX_SIZE && r.base in a.frames && |a.frames[r.base]| == PageCount(r)
            && r.base in a.owners && Live(a.vm, a.owners[r.base], FirstPage(r), a.frames[r.base])
  {
    RegionAt(a, a.regions[k]);
  }
}
