/** vmalloc and vfree as operations on the region list and the page tables together, and whole runs of them. */
module VmallocArena {
  import opened Basics
  import opened PageTables
  import opened PageMapping
  import opened AddressSpaces
  import opened VmallocPages
  import opened VmallocRuns
  import opened VmallocElsewhere
  import Sequences
  import opened Regions

  /** First page of the kernel heap, which begins 32 TiB after the vmalloc arena. */
  const ARENA_END: nat := 0xF_FFFE_0000_0000

  /** The page tables, the current address space, the region list, and by its base for each region the frames behind it and
      the address space in which it was mapped. */
  datatype Arena = Arena(vm: Vm, root: nat, regions: seq<Region>, frames: map<nat, seq<nat>>, owners: map<nat, nat>)

  function FirstPage(r: Region): nat { r.base / PAGE_SIZE }

  /** The largest size for which the loop's counter, an int, does not overflow. */
  const MAX_SIZE: nat := 0x7FFF_F000

  /** The turns of a loop that steps through `size` bytes page by page. */
  function Pages(size: nat): nat { (size + PAGE_SIZE - 1) / PAGE_SIZE }

  function PageCount(r: Region): nat { Pages(r.size) }

  predicate OnPages(r: Region) {
    && r.base % PAGE_SIZE == 0 && r.size <= MAX_SIZE
    && VMALLOC_START <= r.base && r.base + r.size <= ARENA_END * PAGE_SIZE
  }

  predicate Has(r: Region, q: nat) { FirstPage(r) <= q < FirstPage(r) + PageCount(r) }

  predicate InArena(q: nat) { VMALLOC_START / PAGE_SIZE <= q < ARENA_END }

  ghost predicate RegionOK(v: Vm, owners: map<nat, nat>, r: Region, frames: map<nat, seq<nat>>) {
    && OnPages(r) && r.base in frames && |frames[r.base]| == PageCount(r)
    && r.base in owners && Live(v, owners[r.base], FirstPage(r), frames[r.base])
  }

  ghost predicate RegionsOK(a: Arena) {
    forall r :: r in a.regions ==> RegionOK(a.vm, a.owners, r, a.frames)
  }

  /** Two regions use no frame in common. */
  ghost predicate Apart(a: Arena, r: Region, s: Region) {
    r.base in a.frames && s.base in a.frames ==> forall x :: x in a.frames[r.base] ==> x !in a.frames[s.base]
  }

  ghost predicate AllApart(a: Arena) {
    forall r, s :: r in a.regions && s in a.regions && r != s ==> Apart(a, r, s)
  }

  /** Pages of the arena outside every region are not mapped. */
  ghost predicate Quiet(v: Vm, regions: seq<Region>) {
    forall r, q: nat :: IsRoot(v, r) && InArena(q) && !Taken(regions, q) ==> Translate(v, r, PageVA(q)) == None
  }

  predicate Taken(regions: seq<Region>, q: nat) {
    exists r :: r in regions && Has(r, q)
  }

  ghost predicate ArenaInv(a: Arena) {
    && VmInv(a.vm) && IsRoot(a.vm, a.root) && Ordered(Up, a.regions)
    && RegionsOK(a) && AllApart(a) && Quiet(a.vm, a.regions)
  }

  // ---------- vmalloc ----------

  function Placed(a: Arena, size: nat): Region {
    if a.regions == [] then Region(Start(Up), size) else Region(After(Up, a.regions[Stop(Up, a.regions, size, 0)]), size)
  }

  /** Room in the list and below the kernel heap behind a region that ends with its last page, and a frame for each page and
      each missing table. */
  ghost predicate CanVmalloc(a: Arena, size: nat) {
    && 0 < size <= MAX_SIZE && Placed(a, size).base % PAGE_SIZE == 0
    && Room(Up, a.regions, size) && Placed(a, size).base + size <= ARENA_END * PAGE_SIZE
    && |a.vm.free| >= Pages(size) + Tables(a.vm, a.root, FirstPage(Placed(a, size)), Pages(size))
  }

  ghost function Vmalloc(a: Arena, size: nat): Arena {
    var r := Placed(a, size);
    var (w, fs) := MapRange(a.vm, a.root, FirstPage(r), PageCount(r));
    Arena(w, a.root, Insert(Up, a.regions, size), a.frames[r.base := fs], a.owners[r.base := a.root])
  }

  lemma InsertElements(a: Arena, size: nat)
    ensures forall s :: s in Insert(Up, a.regions, size) <==> s in a.regions || s == Placed(a, size)
    ensures Insert(Up, a.regions, size)[Place(Up, a.regions, size)] == Placed(a, size)
  {
    if a.regions != [] {
      var k := Stop(Up, a.regions, size, 0);
      assert a.regions == a.regions[..k + 1] + a.regions[k + 1..];
    }
  }

  /** The new region consists of arena pages and overlaps no other. */
  lemma PlacedOnPages(a: Arena, size: nat)
    requires Ordered(Up, a.regions) && CanVmalloc(a, size) && forall r :: r in a.regions ==> OnPages(r)
    ensures OnPages(Placed(a, size)) && Placed(a, size).size == size
    ensures Ordered(Up, Insert(Up, a.regions, size))
    ensures forall s :: s in a.regions ==> s != Placed(a, size) && (Before(s, Placed(a, size)) || Before(Placed(a, size), s))
  {
    InsertOrderedIff(Up, a.regions, size);
    PlacedBase(a, size);
    PlacedBeside(a, size);
  }

  lemma PlacedBase(a: Arena, size: nat)
    requires Ordered(Up, a.regions) && CanVmalloc(a, size) && forall r :: r in a.regions ==> OnPages(r)
    ensures OnPages(Placed(a, size)) && Placed(a, size).size == size
  {
    hide Room, Stop, Ordered, After, TrueGap, Limit;
    if a.regions != [] {
      var k := Stop(Up, a.regions, size, 0);
      RoomPlaces(Up, a.regions, size);
      assert a.regions[k] in a.regions;
      AfterIsEnd(a.regions[k]);
    }
  }

  lemma AfterIsEnd(r: Region)
    requires OnPages(r)
    ensures After(Up, r) == r.base + r.size
  {
  }

  lemma PlacedBeside(a: Arena, size: nat)
    requires Ordered(Up, a.regions) && Ordered(Up, Insert(Up, a.regions, size)) && 0 < size
    ensures forall s :: s in a.regions ==> s != Placed(a, size) && (Before(s, Placed(a, size)) || Before(Placed(a, size), s))
  {
    if a.regions != [] {
      var k := Stop(Up, a.regions, size, 0);
      var n := Placed(a, size);
      hide Room, Stop;
      forall s | s in a.regions
        ensures s != n && (Before(s, n) || Before(n, s))
      {
        var i :| 0 <= i < |a.regions| && a.regions[i] == s;
        InsertedAt(a.regions, k, n, k + 1);
        InsertedAt(a.regions, k, n, if i <= k then i else i + 1);
        BesideAt(Insert(Up, a.regions, size), k + 1, if i <= k then i else i + 1);
      }
    }
  }

  lemma BesideAt(l: seq<Region>, i: nat, j: nat)
    requires Ordered(Up, l) && i < |l| && j < |l| && i != j
    ensures l[i] != l[j] && (Before(l[i], l[j]) || Before(l[j], l[i]))
  {
    if i < j { assert Hi(Up, l[i]) <= Lo(Up, l[j]); } else { assert Hi(Up, l[j]) <= Lo(Up, l[i]); }
    assert 0 < l[i].size && 0 < l[j].size;
  }

  predicate Before(r: Region, s: Region) { r.base + r.size <= s.base }

  lemma OrderedPairs(l: seq<Region>, r: Region, s: Region)
    requires Ordered(Up, l) && r in l && s in l && r != s
    ensures Before(r, s) || Before(s, r)
  {
    var i :| 0 <= i < |l| && l[i] == r;
    var j :| 0 <= j < |l| && l[j] == s;
    if i < j { assert Hi(Up, l[i]) <= Lo(Up, l[j]); } else { assert Hi(Up, l[j]) <= Lo(Up, l[i]); }
  }

  /** Regions apart share no page. */
  lemma PagesApart(r: Region, s: Region, q: nat)
    requires OnPages(r) && OnPages(s) && (Before(r, s) || Before(s, r))
    ensures !(Has(r, q) && Has(s, q))
  {
  }

  /** The pages of a region are those that hold its bytes, the last of them too when it is not full. */
  lemma PagesHoldBytes(r: Region, q: nat)
    requires OnPages(r)
    ensures Has(r, q) <==> exists x: nat :: r.base <= x < r.base + r.size && PageOf(x) == q
  {
    if Has(r, q) { assert PageOf(q * PAGE_SIZE) == q; }
  }

  function PageOf(x: nat): nat { x / PAGE_SIZE }

  lemma RegionPages(r: Region)
    requires OnPages(r)
    ensures KernelRange(FirstPage(r), PageCount(r)) && forall q :: Has(r, q) ==> InArena(q)
  {
  }

  /** Different pages of the arena have different indices. */
  lemma ArenaPage(q: nat, r: Region)
    requires OnPages(r) && InArena(q) && !Has(r, q)
    ensures !InRange(PageVA(q), FirstPage(r), PageCount(r))
  {
    hide PageVA;
    RegionPages(r);
    forall j: nat | FirstPage(r) <= j < FirstPage(r) + PageCount(r)
      ensures PageVA(q) != PageVA(j)
    {
      KernelPage(VMALLOC_START / PAGE_SIZE, ARENA_END - VMALLOC_START / PAGE_SIZE, q, j);
    }
  }

  lemma PlacedMappable(a: Arena, size: nat)
    requires ArenaInv(a) && CanVmalloc(a, size)
    ensures OnPages(Placed(a, size)) && Placed(a, size).size == size && Ordered(Up, Insert(Up, a.regions, size))
    ensures forall s :: s in a.regions ==> Before(s, Placed(a, size)) || Before(Placed(a, size), s)
    ensures CanMapRange(a.vm, a.root, FirstPage(Placed(a, size)), PageCount(Placed(a, size)))
  {
    hide VmInv, PageVA, Translate, Live, Room, Insert, AllApart, Ordered, Placed;
    PlacedOnPages(a, size);
    var n := Placed(a, size);
    RegionPages(n);
    forall r, q: nat | IsRoot(a.vm, r) && FirstPage(n) <= q < FirstPage(n) + PageCount(n)
      ensures Translate(a.vm, r, PageVA(q)) == None
    {
      assert Has(n, q);
      NotTaken(a, n, q);
    }
  }

  lemma NotTaken(a: Arena, n: Region, q: nat)
    requires OnPages(n) && Has(n, q) && forall s :: s in a.regions ==> OnPages(s) && (Before(s, n) || Before(n, s))
    ensures !Taken(a.regions, q)
  {
    forall s | s in a.regions
      ensures !Has(s, q)
    {
      PagesApart(s, n, q);
    }
  }

  /** A region stays live when its pages, its slots and its frames are left alone. */
  lemma LiveKept(v: Vm, w: Vm, root: nat, p: nat, fs: seq<nat>)
    requires VmInv(v) && Live(v, root, p, fs) && KeepsSlots(v, w) && SameRoots(v, w) && FramesHeld(w, fs)
    requires SamePages(v, w, p, |fs|)
    ensures Live(w, root, p, fs)
  {
    hide PageVA, Translate, KeepsSlots, Shares, VmInv, PathTable, Distinct, FramesHeld, PageLeads;
    forall q: nat | p <= q < p + |fs|
      ensures PathTable(w.mem, 4, root, PageVA(q), 1).Some?
    {
      PathStill(v, w, root, PageVA(q));
    }
    forall r, q: nat | IsRoot(w, r) && p <= q < p + |fs|
      ensures PageLeads(w, root, r, p, fs, q)
    {
      LeadKept(v, w, root, p, fs, r, q);
    }
  }

  ghost predicate SamePages(v: Vm, w: Vm, p: nat, n: nat) {
    forall r, q: nat :: IsRoot(v, r) && p <= q < p + n ==> Translate(w, r, PageVA(q)) == Translate(v, r, PageVA(q))
  }

  lemma LeadKept(v: Vm, w: Vm, root: nat, p: nat, fs: seq<nat>, r: nat, q: nat)
    requires Live(v, root, p, fs) && KeepsSlots(v, w) && SamePages(v, w, p, |fs|) && IsRoot(v, r) && p <= q < p + |fs|
    ensures PageLeads(w, root, r, p, fs, q)
  {
    LiveAt(v, root, p, fs, q);
    PathTop(v, root, PageVA(q)) by { hide PageVA; }
    hide PageVA, Translate, Live, PathTable, KeepsSlots;
    if Shares(v, root, r, PageVA(q).i4) { SharesKept(v, w, root, r, PageVA(q).i4); }
  }

  /** Changing only the pages of one region leaves the pages of another as they are. */
  lemma OtherPages(v: Vm, w: Vm, n: Region, s: Region)
    requires OnPages(n) && OnPages(s) && (Before(s, n) || Before(n, s)) && OthersSame(v, w, FirstPage(n), PageCount(n))
    ensures SamePages(v, w, FirstPage(s), PageCount(s))
  {
    hide PageVA, Translate, InRange;
    RegionPages(s);
    forall r, q: nat | IsRoot(v, r) && FirstPage(s) <= q < FirstPage(s) + PageCount(s)
      ensures Translate(w, r, PageVA(q)) == Translate(v, r, PageVA(q))
    {
      assert Has(s, q);
      PagesApart(s, n, q);
      ArenaPage(q, n);
    }
  }

  /** Frames held before are held after mapping, and none of them was taken. */
  lemma HeldThroughMap(v: Vm, w: Vm, fs: seq<nat>, gs: seq<nat>)
    requires FramesTaken(v, w, fs) && FramesHeld(v, gs)
    ensures FramesHeld(w, gs) && forall x :: x in gs ==> x !in fs
  {
    hide Distinct;
    forall i | 0 <= i < |gs|
      ensures gs[i] !in w.free && gs[i] !in w.roles
    {
      assert gs[i] !in w.roles.Keys - v.roles.Keys;
    }
  }

  lemma QuietAfterMap(a: Arena, w: Vm, n: Region, l: seq<Region>)
    requires Quiet(a.vm, a.regions) && OnPages(n) && SameRoots(a.vm, w) && OthersSame(a.vm, w, FirstPage(n), PageCount(n))
    requires forall s :: s in l <==> s in a.regions || s == n
    ensures Quiet(w, l)
  {
    hide PageVA, Translate, InRange, Has;
    forall r, q: nat | IsRoot(w, r) && InArena(q) && !Taken(l, q)
      ensures Translate(w, r, PageVA(q)) == None
    {
      assert n in l && !Has(n, q);
      assert !Taken(a.regions, q);
      ArenaPage(q, n);
    }
  }

  /** vmalloc keeps the invariant: its region overlaps no other, and neither do its frames. */
  lemma VmallocKeepsInv(a: Arena, size: nat)
    requires ArenaInv(a) && CanVmalloc(a, size)
    ensures ArenaInv(Vmalloc(a, size))
  {
    PlacedMappable(a, size);
    InsertElements(a, size);
    var n := Placed(a, size);
    var (w, fs) := MapRange(a.vm, a.root, FirstPage(n), PageCount(n));
    MapRangeSound(a.vm, a.root, FirstPage(n), PageCount(n));
    MappedIsLive(a.vm, w, a.root, FirstPage(n), PageCount(n), fs);
    var a' := Vmalloc(a, size);
    hide CanMapRange, MapRange, VmInv, Live, Placed, Insert, Room, Ordered, FramesTaken, KeepsSlots, PagesLead, PathsReady, CanVmalloc, Translate, PageVA, OthersSame;
    QuietAfterMap(a, w, n, a'.regions);
    assert IsRoot(w, a.root);
    forall r | r in a'.regions
      ensures RegionOK(w, a'.owners, r, a'.frames)
    {
      if r != n { OldRegionOK(a, w, n, fs, r); }
    }
    NewApart(a, a', w, n, fs);
  }

  /** A region stays as it was while another one is mapped. */
  lemma OldRegionOK(a: Arena, w: Vm, n: Region, fs: seq<nat>, r: Region)
    requires VmInv(a.vm) && RegionsOK(a) && OnPages(n) && r in a.regions && (Before(r, n) || Before(n, r)) && r != n && 0 < n.size
    requires 0 < r.size
    requires FramesTaken(a.vm, w, fs) && SameRoots(a.vm, w) && KeepsSlots(a.vm, w) && OthersSame(a.vm, w, FirstPage(n), PageCount(n))
    ensures RegionOK(w, a.owners[n.base := a.root], r, a.frames[n.base := fs]) && r.base != n.base
  {
    hide VmInv, FramesTaken, KeepsSlots, OthersSame, PathsReady, PagesLead, PageVA, RegionsOK;
    assert RegionOK(a.vm, a.owners, r, a.frames) by { RegionAt(a, r); }
    HeldThroughMap(a.vm, w, fs, a.frames[r.base]);
    OtherPages(a.vm, w, n, r);
    LiveKept(a.vm, w, a.owners[r.base], FirstPage(r), a.frames[r.base]);
  }

  lemma RegionAt(a: Arena, r: Region)
    requires RegionsOK(a) && r in a.regions
    ensures RegionOK(a.vm, a.owners, r, a.frames)
  {
  }

  lemma NewApart(a: Arena, a': Arena, w: Vm, n: Region, fs: seq<nat>)
    requires RegionsOK(a) && AllApart(a) && FramesTaken(a.vm, w, fs)
    requires a'.frames == a.frames[n.base := fs] && forall s :: s in a'.regions <==> s in a.regions || s == n
    requires forall s :: s in a.regions ==> s.base != n.base
    ensures AllApart(a')
  {
    hide FramesTaken, PathsReady, PagesLead, Distinct, OnPages, KernelRange;
    forall r, s | r in a'.regions && s in a'.regions && r != s
      ensures Apart(a', r, s)
    {
      if r != n { assert RegionOK(a.vm, a.owners, r, a.frames); HeldThroughMap(a.vm, w, fs, a.frames[r.base]); }
      if s != n { assert RegionOK(a.vm, a.owners, s, a.frames); HeldThroughMap(a.vm, w, fs, a.frames[s.base]); }
      if r != n && s != n { assert Apart(a, r, s); }
    }
  }

  // ---------- vfree ----------

  ghost function Vfree(a: Arena, k: nat): Arena
    requires k < |a.regions|
  {
    var r := a.regions[k];
    Arena(UnmapRange(a.vm, a.root, FirstPage(r), PageCount(r)), a.root, a.regions[..k] + a.regions[k + 1..],
          a.frames - {r.base}, a.owners - {r.base})
  }

  /** The region is there, and the current address space shares its slots. */
  ghost predicate CanVfree(a: Arena, k: nat) {
    && k < |a.regions| && a.regions[k].base in a.owners
    && SharesPages(a.vm, a.owners[a.regions[k].base], a.root, FirstPage(a.regions[k]), PageCount(a.regions[k]))
  }

  lemma RemovedElements(l: seq<Region>, k: nat)
    requires Ordered(Up, l) && k < |l|
    ensures forall s :: s in l[..k] + l[k + 1..] <==> s in l && s != l[k]
  {
    hide Ordered;
    forall i, j | 0 <= i < j < |l|
      ensures l[i] != l[j]
    {
      BesideAt(l, i, j);
    }
    assert Distinct(l);
    forall s
      ensures s in Sequences.Removed(l, k) <==> s in l && s != l[k]
    {
      Sequences.RemovedMembers(l, k, s);
    }
  }

  lemma OrderedBeside(l: seq<Region>, r: Region, s: Region)
    requires Ordered(Up, l) && r in l && s in l && r != s
    ensures (Before(r, s) || Before(s, r)) && r.base != s.base
  {
    OrderedPairs(l, r, s);
    assert 0 < r.size && 0 < s.size;
  }

  /** A region stays as it was while another one is unmapped. */
  lemma KeptRegionOK(a: Arena, u: Vm, n: Region, fs: seq<nat>, r: Region)
    requires VmInv(a.vm) && RegionsOK(a) && AllApart(a) && n in a.regions && r in a.regions && r != n
    requires (Before(r, n) || Before(n, r)) && r.base != n.base
    requires n.base in a.frames && fs == a.frames[n.base] && |fs| == PageCount(n) && RangeUnmapped(a.vm, u, FirstPage(n), PageCount(n), fs)
    ensures RegionOK(u, a.owners - {n.base}, r, a.frames - {n.base})
  {
    RegionAt(a, r);
    RegionAt(a, n);
    assert Apart(a, r, n);
    assert fs[..PageCount(n)] == fs;
    hide VmInv, KeepsSlots, OthersSame, PathsReady, PagesLead, PageVA, RegionsOK, AllApart, PagesGone, Distinct, OnPages;
    HeldThroughUnmap(a.vm, u, fs, a.frames[r.base]);
    OtherPages(a.vm, u, n, r) by { assert OnPages(n) && OnPages(r); }
    LiveKept(a.vm, u, a.owners[r.base], FirstPage(r), a.frames[r.base]);
  }

  lemma HeldThroughUnmap(v: Vm, u: Vm, fs: seq<nat>, gs: seq<nat>)
    requires FramesHeld(v, gs) && u.roles == v.roles && u.free == v.free + Sequences.Elements(fs)
    requires forall x :: x in gs ==> x !in fs
    ensures FramesHeld(u, gs)
  {
    assert forall i :: 0 <= i < |gs| ==> gs[i] in gs;
  }

  lemma QuietAfterUnmap(a: Arena, u: Vm, n: Region, l: seq<Region>)
    requires Quiet(a.vm, a.regions) && OnPages(n) && u.roles == a.vm.roles
    requires OthersSame(a.vm, u, FirstPage(n), PageCount(n)) && PagesGone(a.vm, u, FirstPage(n), PageCount(n))
    requires forall s :: s in l <==> s in a.regions && s != n
    ensures Quiet(u, l)
  {
    hide PageVA, Translate, InRange;
    forall r, q: nat | IsRoot(u, r) && InArena(q) && !Taken(l, q)
      ensures Translate(u, r, PageVA(q)) == None
    {
      assert IsRoot(a.vm, r);
      if !Has(n, q) {
        assert !Taken(a.regions, q);
        ArenaPage(q, n);
      }
    }
  }

  lemma ApartKept(a: Arena, a': Arena, base: nat)
    requires AllApart(a) && a'.frames == a.frames - {base} && forall s :: s in a'.regions ==> s in a.regions
    ensures AllApart(a')
  {
    forall r, s | r in a'.regions && s in a'.regions && r != s
      ensures Apart(a', r, s)
    {
      assert Apart(a, r, s);
    }
  }

  /** vfree of any live region keeps the invariant, in any address space that shares the region's slots. */
  lemma VfreeKeepsInv(a: Arena, k: nat)
    requires ArenaInv(a) && CanVfree(a, k)
    ensures ArenaInv(Vfree(a, k))
  {
    hide UnmapRange, VmInv, Live, Ordered, Translate, PageVA, AllApart, Quiet, PagesGone, OthersSame, KeepsSlots, SharesPages;
    var n := a.regions[k];
    assert RegionOK(a.vm, a.owners, n, a.frames);
    var fs := a.frames[n.base];
    LiveElsewhere(a.vm, a.owners[n.base], a.root, FirstPage(n), fs);
    UnmapRangeSound(a.vm, a.root, FirstPage(n), PageCount(n), fs);
    RemovedElements(a.regions, k);
    RemoveKeepsOrdered(Up, a.regions, k);
    var a' := Vfree(a, k);
    ApartKept(a, a', n.base);
    QuietAfterUnmap(a, a'.vm, n, a'.regions);
    forall r | r in a'.regions
      ensures RegionOK(a'.vm, a'.owners, r, a'.frames)
    {
      OrderedBeside(a.regions, r, n);
      KeptRegionOK(a, a'.vm, n, fs, r);
    }
  }

  /** Freeing the region just allocated restores the list and every translation, and gives back every frame except
      the tables created on the way. */
  lemma VfreeRestores(a: Arena, size: nat)
    requires ArenaInv(a) && CanVmalloc(a, size)
    ensures var k := Place(Up, a.regions, size);
            var b := Vmalloc(a, size);
            && k < |b.regions|
            && var c := Vfree(b, k);
               && c.regions == a.regions && SameTranslations(a.vm, c.vm)
               && c.vm.free == a.vm.free - (c.vm.roles.Keys - a.vm.roles.Keys)
  {
    hide CanVmalloc, ArenaInv, VmInv, Placed, Place, Insert, CanMapRange;
    PlacedMappable(a, size);
    InsertElements(a, size);
    RemoveUndoesInsert(Up, a.regions, size);
    VfreeUndoesVmalloc(a.vm, a.root, FirstPage(Placed(a, size)), PageCount(Placed(a, size)));
  }

  /** In the address space in which a region was mapped it can be freed. */
  lemma OwnRegion(a: Arena, k: nat)
    requires ArenaInv(a) && k < |a.regions| && a.regions[k].base in a.owners && a.owners[a.regions[k].base] == a.root
    ensures CanVfree(a, k)
  {
    hide VmInv, PageVA, Translate, Ordered, AllApart, Quiet, PathTable, Shares;
    var r := a.regions[k];
    RegionAt(a, r);
    forall q: nat | FirstPage(r) <= q < FirstPage(r) + PageCount(r)
      ensures Shares(a.vm, a.root, a.root, PageVA(q).i4)
    {
      LiveAt(a.vm, a.root, FirstPage(r), a.frames[r.base], q);
      PathTop(a.vm, a.root, PageVA(q));
    }
  }

  /** vfree in the current address space takes exactly the region off the page tables if and only if it can be freed there. */
  lemma VfreeRightIff(a: Arena, k: nat)
    requires ArenaInv(a) && k < |a.regions|
    ensures var r := a.regions[k];
            && r.base in a.frames && |a.frames[r.base]| == PageCount(r)
            && (RangeUnmapped(a.vm, Vfree(a, k).vm, FirstPage(r), PageCount(r), a.frames[r.base]) <==> CanVfree(a, k))
  {
    hide VmInv, PageVA, Ordered, AllApart, Quiet, RangeUnmapped, SharesPages, UnmapRange;
    var r := a.regions[k];
    RegionAt(a, r);
    VfreeElsewhereIff(a.vm, a.owners[r.base], FirstPage(r), a.frames[r.base], a.root);
  }
}
