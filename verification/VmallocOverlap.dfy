/** What vmalloc does behind a region that does not end with its last page. */
module VmallocOverlap {
  import opened Basics
  import opened PageTables
  import opened PageMapping
  import opened Regions
  import opened VmallocPages
  import opened VmallocRuns
  import opened VmallocElsewhere
  import opened VmallocArena

  /** The region in front of the one to be placed. */
  function Front(a: Arena, size: nat): Region
    requires a.regions != []
  {
    a.regions[Stop(Up, a.regions, size, 0)]
  }

  lemma PlacedBehind(a: Arena, size: nat)
    requires ArenaInv(a) && 0 < size && Room(Up, a.regions, size)
    ensures Ordered(Up, Insert(Up, a.regions, size))
    ensures a.regions == [] ==> Placed(a, size).base == VMALLOC_START
    ensures a.regions != [] ==> var c := Front(a, size);
            c in a.regions && OnPages(c) && 0 < c.size && Placed(a, size).base == c.base + c.size
    ensures Placed(a, size).size == size
  {
    hide VmInv, Quiet, AllApart, Room, Stop, Insert;
    InsertOrderedIff(Up, a.regions, size);
    if a.regions != [] {
      RegionAt(a, Front(a, size));
      AfterIsEnd(Front(a, size));
    }
  }

  /** The first page of the new region is a page of an older one if and only if the region in front of it does not end with its
      last page. */
  lemma VmallocSharesIff(a: Arena, size: nat)
    requires ArenaInv(a) && 0 < size && Room(Up, a.regions, size)
    ensures Taken(a.regions, FirstPage(Placed(a, size))) <==> Placed(a, size).base % PAGE_SIZE != 0
    ensures (forall r :: r in a.regions ==> r.size % PAGE_SIZE == 0) ==> Placed(a, size).base % PAGE_SIZE == 0
  {
    hide VmInv, Quiet, AllApart, Room, Stop, Insert, Ordered, Placed;
    PlacedBehind(a, size);
    var n := Placed(a, size);
    if n.base % PAGE_SIZE != 0 {
      assert Has(Front(a, size), FirstPage(n)) by { LastPage(Front(a, size), n); }
    } else {
      PlacedBeside(a, size) by { PlacedBehind(a, size); }
      forall s | s in a.regions
        ensures !Has(s, FirstPage(n))
      {
        RegionAt(a, s);
        FirstNotIn(s, n);
      }
    }
  }

  lemma LastPage(c: Region, n: Region)
    requires c.base % PAGE_SIZE == 0 && n.base == c.base + c.size && n.base % PAGE_SIZE != 0
    ensures Has(c, FirstPage(n))
  {
  }

  lemma FirstNotIn(s: Region, n: Region)
    requires s.base % PAGE_SIZE == 0 && n.base % PAGE_SIZE == 0 && 0 < n.size && (Before(s, n) || Before(n, s))
    ensures !Has(s, FirstPage(n))
  {
  }

  lemma {:induction false} PathOpen(mem: map<nat, seq<Entry>>, level: nat, t: nat, va: VA)
    requires PathTable(mem, level, t, va, 1).Some?
    ensures NoHuge(mem, level, t, va, 1) && Missing(mem, level, t, va, 1) == 0
    decreases level
  {
    if level > 1 { PathOpen(mem, level - 1, At(mem, t, Idx(va, level)).frame, va); }
  }

  /** Mapping a page over one that is mapped already replaces its frame. */
  lemma MapOver(v: Vm, root: nat, va: VA)
    requires VmInv(v) && IsRoot(v, root) && Proper(va) && PathTable(v.mem, 4, root, va, 1).Some? && v.free != {}
    ensures var f := Lowest(v.free);
            var u := v.(free := v.free - {f});
            && f in v.free && CanMap(u, root, f, va, Small, WRITABLE)
            && var w := MapPage(u, root, f, va, Small, WRITABLE);
               IsRoot(w, root) && Translate(w, root, va) == Some(Mapping(f, true, false, false, 0))
  {
    hide VmInv, PathTable, NoHuge, Missing, MapPage, Walk;
    var f := Lowest(v.free);
    var u := v.(free := v.free - {f});
    FreeFewer(v, u.free);
    PathOpen(v.mem, 4, root, va);
    MapKeepsInv(u, root, f, va, Small, WRITABLE);
    MapRefines(u, root, f, va, Small, WRITABLE, root, va);
    PathTop(v, root, va);
    assert Points(u, root, va.i4);
    assert KeepsSlot(u, MapPage(u, root, f, va, Small, WRITABLE), root, va.i4);
  }

  /** There the first turn of vmalloc's loop replaces the entry of that page, so the older region no longer has its own frames behind
      its pages. */
  lemma VmallocOverwrites(a: Arena, size: nat)
    requires ArenaInv(a) && 0 < size && Room(Up, a.regions, size) && Placed(a, size).base % PAGE_SIZE != 0 && a.vm.free != {}
    requires CanVfree(a, Stop(Up, a.regions, size, 0))
    ensures var f, va := Lowest(a.vm.free), PageVA(FirstPage(Placed(a, size)));
            var v := a.vm.(free := a.vm.free - {f});
            && CanMap(v, a.root, f, va, Small, WRITABLE)
            && var w := MapPage(v, a.root, f, va, Small, WRITABLE);
               && Translate(w, a.root, va) == Some(Mapping(f, true, false, false, 0))
               && !RegionOK(w, a.owners, Front(a, size), a.frames)
  {
    hide VmInv, Quiet, AllApart, Room, Stop, Insert, Ordered, Placed, PageVA, Translate, CanMap, MapPage, Live, SharesPages, PathTable;
    PlacedBehind(a, size);
    var c, n := Front(a, size), Placed(a, size);
    LastPage(c, n);
    RegionAt(a, c);
    var fs, q := a.frames[c.base], FirstPage(n);
    LiveElsewhere(a.vm, a.owners[c.base], a.root, FirstPage(c), fs);
    LiveAt(a.vm, a.root, FirstPage(c), fs, q);
    MapOver(a.vm, a.root, PageVA(q));
    var f := Lowest(a.vm.free);
    var w := MapPage(a.vm.(free := a.vm.free - {f}), a.root, f, PageVA(q), Small, WRITABLE);
    OtherFrame(w, a.owners[c.base], a.root, FirstPage(c), fs, q, f);
  }

  /** A page that leads to a frame not its own is not part of a live region. */
  lemma OtherFrame(w: Vm, owner: nat, r: nat, p: nat, fs: seq<nat>, q: nat, f: nat)
    requires IsRoot(w, r) && p <= q < p + |fs| && fs[q - p] != f && Translate(w, r, PageVA(q)) == Some(Mapping(f, true, false, false, 0))
    ensures !Live(w, owner, p, fs)
  {
    hide PageVA, Translate, PathsReady;
    assert !PageLeads(w, owner, r, p, fs, q);
  }
}
