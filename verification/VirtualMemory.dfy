/** mm/vmm.c and create_user_process as they run: entries rewritten in place, frames from the bitmap allocator. */
module VirtualMemory {
  import opened Basics
  import opened PageTables
  import opened PageMapping
  import opened AddressSpaces
  import VmallocPages
  import opened DirectMapping
  import PM = PhysicalMemory

  /** The indices a virtual address selects in the four tables. */
  function Indices(vaddr: nat): (va: VA)
    ensures Proper(va)
  {
    VA((vaddr / 0x80_0000_0000) % ENTRIES, (vaddr / 0x4000_0000) % ENTRIES, (vaddr / LARGE_PAGE_SIZE) % ENTRIES, (vaddr / PAGE_SIZE) % ENTRIES)
  }

  lemma PageIndices(q: nat)
    ensures Indices(q * PAGE_SIZE) == VmallocPages.PageVA(q)
  {
    assert q * PAGE_SIZE / 0x80_0000_0000 == q / 0x800_0000;
    assert q * PAGE_SIZE / 0x4000_0000 == q / 0x4_0000;
    assert q * PAGE_SIZE / LARGE_PAGE_SIZE == q / 512;
  }

  /** The address of large page k in the direct mapping. */
  lemma LargeIndices(k: nat)
    requires k < SLOTS
    ensures Indices(k * LARGE_PAGE_SIZE + DIRECT_OFFSET) == DirectVA(k, 0)
  {
    var q := k * 512 + DIRECT_OFFSET / PAGE_SIZE;
    assert k * LARGE_PAGE_SIZE + DIRECT_OFFSET == q * PAGE_SIZE;
    PageIndices(q);
    DirectIndices(k, 0);
    assert (k * LARGE_PAGE_SIZE + DIRECT_OFFSET) / PAGE_SIZE == q;
  }

  /** The next turn of vmm_init_direct_mapping's loop. */
  lemma DirectTurn(v: Vm, n: nat, k: nat)
    requires DirectDone(v, v, n, 0) && k < SLOTS && |v.free| >= DirectTables(k + 1)
    ensures CanMap(DirectMap(v, n, k), n, k * 512, DirectVA(k, 0), Huge, VmallocPages.WRITABLE)
    ensures DirectMap(v, n, k + 1) == PageMapping.MapPage(DirectMap(v, n, k), n, k * 512, DirectVA(k, 0), Huge, VmallocPages.WRITABLE)
  {
    hide DirectDone, CanMap, PageMapping.MapPage, DirectTables, DirectVA;
    DirectTablesNext(k);
    DirectMapSound(v, n, k);
    DirectMapping.NextMappable(v, DirectMap(v, n, k), n, k);
  }

  lemma TablesSuffice(k: nat, maxAddr: nat)
    requires k < LargePages(maxAddr)
    ensures DirectTables(k + 1) <= DirectTables(LargePages(maxAddr))
  {
    hide LargePages;
    var n := LargePages(maxAddr);
    QuotientGrows(k + 1 + 0x3_FFFF, n + 0x3_FFFF, 0x4_0000);
    QuotientGrows(k + 1 + 511, n + 511, 512);
  }

  lemma QuotientGrows(a: nat, b: nat, n: nat)
    requires a <= b && (n == 512 || n == 0x4_0000)
    ensures a / n <= b / n
  {
  }

  class AddressSpaceManager {
    var mem: map<nat, seq<Entry>>   // page frames that hold tables
    const pmm: PM.Pmm
    ghost var roles: map<nat, Role> // which frames are tables, and of what kind

    ghost function View(): Vm
      reads this, pmm, pmm.bitmap
    {
      Vm(mem, roles, pmm.Free())
    }

    ghost predicate Valid()
      reads this, pmm, pmm.bitmap
    {
      pmm.Valid() && VmInv(View())
    }

    constructor (m: map<nat, seq<Entry>>, p: PM.Pmm, ghost r: map<nat, Role>)
      requires p.Valid() && VmInv(Vm(m, r, p.Free()))
      ensures Valid() && mem == m && pmm == p && roles == r
    {
      mem, pmm, roles := m, p, r;
    }

    /** One level of vmm_map_page: the table below slot (t, i), created if the slot is empty. */
    method NextTable(t: nat, i: nat, user: bool) returns (c: nat)
      requires pmm.Valid() && CanEnsure(View(), t, i, user)
      modifies this, pmm.bitmap
      ensures pmm.Valid() && View() == Ensure(old(View()), t, i, user)
      ensures c == At(mem, t, i).frame
    {
      hide VmInv, UserReady, UserClosed;
      ghost var v := View();
      EnsureAt(v, t, i, user);
      var e := mem[t][i];
      if !e.present {
        var paddr := pmm.AllocPage();
        var n := paddr / PAGE_SIZE;
        LowestUnique(v.free, n);
        mem := mem[n := ZeroTable()];
        mem := mem[t := mem[t][i := Entry(n, true, true, user, false, 0)]];
        roles := roles[n := Role(roles[t].level - 1, t, i)];
      } else if user {
        mem := mem[t := mem[t][i := e.(user := true)]];
      }
      c := mem[t][i].frame;
    }

    lemma LowestUnique(s: set<nat>, n: nat)
      requires n in s && forall j :: j in s ==> n <= j
      ensures Lowest(s) == n
    {
    }

    /** Levels 4 to lvl + 1, one after the other. */
    method Descend(root: nat, va: VA, lvl: nat, user: bool) returns (t: nat)
      requires pmm.Valid() && 1 <= lvl <= 2 && CanPrepare(View(), 4, root, va, lvl, user)
      modifies this, pmm.bitmap
      ensures pmm.Valid() && (View(), t) == Prepare(old(View()), 4, root, va, lvl, user)
    {
      hide CanEnsure, CanPrepare, Ensure, Extends, SameTranslations;
      PrepareStep(View(), 4, root, va, lvl, user);
      var pdpt := NextTable(root, va.i4, user);
      PrepareStep(View(), 3, pdpt, va, lvl, user);
      t := NextTable(pdpt, va.i3, user);
      if lvl == 1 {
        PrepareStep(View(), 2, t, va, lvl, user);
        t := NextTable(t, va.i2, user);
      }
    }

    /** vmm_map_page for the two page sizes it supports. */
    method MapPage(root: nat, paddr: nat, vaddr: nat, ps: PageSize, f: Flags)
      requires pmm.Valid() && paddr % PAGE_SIZE == 0 && CanMap(View(), root, paddr / PAGE_SIZE, Indices(vaddr), ps, f)
      modifies this, pmm.bitmap
      ensures pmm.Valid() && View() == PageMapping.MapPage(old(View()), root, paddr / PAGE_SIZE, Indices(vaddr), ps, f)
    {
      hide CanMap, CanPrepare, Prepare, VmInv, Indices, NoHuge, Extends, SameTranslations, UserReady;
      ghost var v := View();
      var va := Indices(vaddr);
      MapPrepared(v, root, paddr / PAGE_SIZE, va, ps, f);
      var lvl := if ps == Small then 1 else 2;
      var t := Descend(root, va, lvl, f.user);
      TableHere(View(), t, lvl);
      mem := mem[t := mem[t][Idx(va, lvl) := LeafEntry(paddr / PAGE_SIZE, ps, f)]];
    }

    lemma TableHere(v: Vm, t: nat, lvl: nat)
      requires VmInv(v) && IsTable(v, t, lvl)
      ensures t in v.mem && |v.mem[t]| == ENTRIES
    {
    }

    /** vmm_map_page for any other page size: an error is reported after the upper two levels are prepared, and no
        translation has changed. */
    method MapWrongSize(root: nat, vaddr: nat, user: bool)
      requires pmm.Valid() && CanPrepare(View(), 4, root, Indices(vaddr), 2, user)
      modifies this, pmm.bitmap
      ensures Valid() && SameTranslations(old(View()), View())
      ensures View() == Prepare(old(View()), 4, root, Indices(vaddr), 2, user).0
    {
      hide CanPrepare, Prepare, VmInv, Indices, NoHuge, Extends, SameTranslations, UserReady;
      PrepareSound(View(), 4, root, Indices(vaddr), 2, user);
      var t := Descend(root, Indices(vaddr), 2, user);
    }

    /** vmm_get_entry: each level in turn, stopping at a missing table or a large page. */
    method FindEntry(root: nat, va: VA) returns (s: Option<Slot>)
      requires Valid() && IsRoot(View(), root) && Proper(va)
      ensures s == GetEntry(mem, 4, root, va)
    {
      var level, t := 4, root;
      while level > 1
        invariant 1 <= level <= 4 && IsTable(View(), t, level) && TablesOK(View())
        invariant GetEntry(mem, level, t, va) == GetEntry(mem, 4, root, va)
      {
        var e := mem[t][Idx(va, level)];
        if !e.present {
          return None;
        }
        if e.bit7 {
          return Some(Slot(t, Idx(va, level)));
        }
        assert Points(View(), t, Idx(va, level));
        assert ChildOK(View(), t, Idx(va, level));
        level, t := level - 1, e.frame;
      }
      return Some(Slot(t, Idx(va, 1)));
    }

    /** vmm_unmap_page: clears the entry and returns the address it held, or 0. */
    method UnmapPage(root: nat, vaddr: nat) returns (paddr: nat)
      requires Valid() && IsRoot(View(), root)
      modifies this`mem
      ensures Valid() && View() == AddressSpaces.UnmapPage(old(View()), root, Indices(vaddr)).0
      ensures paddr == AddressSpaces.UnmapPage(old(View()), root, Indices(vaddr)).1 * PAGE_SIZE
    {
      hide Indices;
      var va := Indices(vaddr);
      UnmapKeepsInv(View(), root, va);
      GetEntryFinds(View(), 4, root, va);
      var s := FindEntry(root, va);
      match s {
        case None => return 0;
        case Some(slot) =>
          TableHere(View(), slot.table, roles[slot.table].level);
          paddr := mem[slot.table][slot.index].frame * PAGE_SIZE;
          mem := mem[slot.table := mem[slot.table][slot.index := ZERO]];
      }
    }

    /** vmm_init_direct_mapping: a new root that keeps slot 511 of the current one, and all physical memory below
        `maxAddr` in large pages at DIRECT_OFFSET. */
    method InitDirectMapping(cur: nat, maxAddr: nat) returns (root: nat)
      requires Valid() && IsRoot(View(), cur)
      requires LargePages(maxAddr) <= SLOTS && |pmm.Free()| >= 1 + DirectTables(LargePages(maxAddr))
      modifies this, pmm.bitmap
      ensures pmm.Valid() && root == CreateRoot(old(View()), cur, 511).1
      ensures View() == DirectMap(CreateRoot(old(View()), cur, 511).0, root, LargePages(maxAddr))
    {
      hide VmInv, DirectDone, CanMap, PageMapping.MapPage, Indices, PM.FreePages, Lowest, CreateRoot, DirectMap, DirectVA, LargePages, DirectTables;
      FreshRoot(View(), cur);
      FreeLeft(View(), cur);
      root := TopRoot(cur);
      ghost var v1, k := View(), 0;
      DirectNone(v1, root);
      var paddr := 0;
      while paddr < maxAddr
        invariant k <= LargePages(maxAddr) && paddr == k * LARGE_PAGE_SIZE
        invariant pmm.Valid() && View() == DirectMap(v1, root, k)
        decreases maxAddr - paddr
      {
        LargeTurn(k, maxAddr);
        TablesSuffice(k, maxAddr);
        MapLarge(root, paddr, v1, k);
        paddr, k := paddr + LARGE_PAGE_SIZE, k + 1;
      }
      LargeTurn(k, maxAddr);
    }

    /** The body of the loop: large page k of memory, at its address in the direct mapping. */
    method MapLarge(root: nat, paddr: nat, ghost v: Vm, ghost k: nat)
      requires pmm.Valid() && paddr == k * LARGE_PAGE_SIZE && View() == DirectMap(v, root, k)
      requires DirectDone(v, v, root, 0) && k < SLOTS && |v.free| >= DirectTables(k + 1)
      modifies this, pmm.bitmap
      ensures pmm.Valid() && View() == DirectMap(v, root, k + 1)
    {
      hide VmInv, DirectDone, CanMap, PageMapping.MapPage, Indices, PM.FreePages, DirectMap, DirectVA, DirectTables;
      DirectTurn(v, root, k);
      LargeIndices(k);
      MapPage(root, paddr, paddr + DIRECT_OFFSET, Huge, VmallocPages.WRITABLE);
    }

    /** The new root: cleared, but for slot 511. */
    method TopRoot(cur: nat) returns (root: nat)
      requires Valid() && IsRoot(View(), cur) && pmm.Free() != {}
      modifies this, pmm.bitmap
      ensures pmm.Valid() && (View(), root) == CreateRoot(old(View()), cur, 511)
    {
      hide VmInv, PM.FreePages, Lowest;
      ghost var v := View();
      CreateAt(v, cur, 511);
      TableHere(v, cur, 4);
      var frame := pmm.AllocPage();
      root := frame / PAGE_SIZE;
      LowestUnique(v.free, root);
      var table := ZeroTable();
      table := table[511 := mem[cur][511]];
      assert table == RootTable(mem, cur, 511);
      mem := mem[root := table];
      roles := roles[root := Role(4, 0, 0)];
    }

    lemma DirectNone(v: Vm, n: nat)
      ensures DirectMap(v, n, 0) == v
    {
    }

    /** create_user_process: a new root with an empty lower half and the current root's upper half; nothing if the
        page allocator answers 0. */
    method CreateProcess(cur: nat) returns (root: Option<nat>)
      requires Valid() && IsRoot(View(), cur)
      modifies this, pmm.bitmap
      ensures Valid()
      ensures old(pmm.Free()) == {} ==> root == None && View() == old(View())
      ensures old(pmm.Free()) != {} && Lowest(old(pmm.Free())) == 0 ==> root == None && View() == old(View().(free := pmm.Free() - {0}))
      ensures old(pmm.Free()) != {} && Lowest(old(pmm.Free())) != 0 ==>
                root.Some? && (View(), root.value) == CreateRoot(old(View()), cur, KERNEL_HALF)
    {
      hide VmInv;
      ghost var v := View();
      if v.free != {} {
        CreateKeepsInv(v, cur, KERNEL_HALF);
        CreateAt(v, cur, KERNEL_HALF);
        FreeFewer(v, v.free - {Lowest(v.free)});
      }
      TableHere(v, cur, 4);
      var paddr := pmm.AllocPage();
      if v.free != {} { LowestUnique(v.free, paddr / PAGE_SIZE); }
      if paddr == 0 {
        return None;
      }
      var n := paddr / PAGE_SIZE;
      var table := NewRootTable(cur);
      mem := mem[n := table];
      roles := roles[n := Role(4, 0, 0)];
      root := Some(n);
    }

    lemma FreeFewer(v: Vm, free: set<nat>)
      requires VmInv(v) && free <= v.free
      ensures VmInv(v.(free := free))
    {
      assert forall t :: t in v.roles ==> t !in free;
      FreeChanged(v, free);
    }

    /** The two loops that fill a new root. */
    method NewRootTable(cur: nat) returns (table: seq<Entry>)
      requires cur in mem && |mem[cur]| == ENTRIES
      ensures table == RootTable(mem, cur, KERNEL_HALF)
    {
      table := [];
      for i := 0 to KERNEL_HALF
        invariant |table| == i && forall j: nat :: j < i ==> table[j] == ZERO
      {
        table := table + [ZERO];
      }
      for i := KERNEL_HALF to ENTRIES
        invariant |table| == i && forall j: nat :: j < i ==> table[j] == if j < KERNEL_HALF then ZERO else At(mem, cur, j)
      {
        table := table + [mem[cur][i]];
      }
    }
  }
}
