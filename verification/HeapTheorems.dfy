/** What the heap invariant means for its callers, over single states and over whole runs. */
module HeapTheorems {
  import opened Basics
  import opened Blocks
  import opened BuddyTiling
  import opened BuddyModel
  import opened HeapModel

  // ---------- byte ranges ----------

  /** Half-open range of byte offsets from the heap base. */
  datatype Range = Range(lo: nat, hi: nat)

  ghost predicate Disjoint(a: Range, b: Range) {
    a.hi <= b.lo || b.hi <= a.lo
  }

  ghost function Extent(h: Heap, o: Obj): Range
    requires IsObject(h.buddy.used, h.slabs, o)
  {
    var lo := o.page * PAGE_SIZE + if o.Large? then 0 else SlotOffset(h.slabs[o.page].cls, o.index);
    Range(lo, lo + Granted(h.buddy.used, h.slabs, o))
  }

  ghost function BlockRange(b: Block): Range {
    Range(b.page * PAGE_SIZE, b.page * PAGE_SIZE + Pow2(b.order) * PAGE_SIZE)
  }

  /** The used block an object lives in. */
  ghost function HomeBlock(h: Heap, o: Obj): Block
    requires Core(h) && o in h.live
  {
    LiveIsObject(h, o);
    Block(o.page, h.buddy.used[o.page])
  }

  lemma HomeIsUsed(h: Heap, o: Obj)
    requires Core(h) && o in h.live
    ensures HomeBlock(h, o) in UsedSet(h.buddy.used) && Placed(HomeBlock(h, o))
  {
    LiveIsObject(h, o);
    assert HomeBlock(h, o) in FreeSet(h.buddy.lists) + UsedSet(h.buddy.used);
  }

  /** A live object lies inside its block, beyond the slab header if the block is a slab page. */
  lemma ExtentInHome(h: Heap, o: Obj)
    requires Core(h) && o in h.live
    ensures IsObject(h.buddy.used, h.slabs, o)
    ensures BlockRange(HomeBlock(h, o)).lo <= Extent(h, o).lo && Extent(h, o).hi <= BlockRange(HomeBlock(h, o)).hi
    ensures o.Slot? ==> o.page * PAGE_SIZE + HEADER <= Extent(h, o).lo
  {
    hide BuddyModel.Inv, ListsOK, LiveOK, ObjSize;
    LiveIsObject(h, o);
    if o.Slot? {
      SlotFits(h.slabs[o.page].cls, o.index);
      assert Pow2(0) == 1;
    }
  }

  lemma ApartRanges(a: Block, b: Block)
    requires Apart(a, b)
    ensures Disjoint(BlockRange(a), BlockRange(b))
  {
    ScaleMonotone(a.page + Pow2(a.order), b.page);
    ScaleMonotone(b.page + Pow2(b.order), a.page);
  }

  lemma ScaleMonotone(a: nat, b: nat)
    ensures a <= b ==> a * PAGE_SIZE <= b * PAGE_SIZE
  {
  }

  lemma UsedBlocksApart(h: Heap, a: Block, b: Block)
    requires Core(h) && a != b
    requires a in FreeSet(h.buddy.lists) + UsedSet(h.buddy.used) && b in FreeSet(h.buddy.lists) + UsedSet(h.buddy.used)
    ensures Disjoint(BlockRange(a), BlockRange(b))
  {
    assert Apart(a, b);
    ApartRanges(a, b);
  }

  /** Two live allocations never share a byte. */
  lemma LiveDisjoint(h: Heap, o1: Obj, o2: Obj)
    requires Core(h) && o1 in h.live && o2 in h.live && o1 != o2
    ensures IsObject(h.buddy.used, h.slabs, o1) && IsObject(h.buddy.used, h.slabs, o2)
    ensures Disjoint(Extent(h, o1), Extent(h, o2))
  {
    LiveIsObject(h, o1);
    LiveIsObject(h, o2);
    if o1.page == o2.page {
      hide BuddyModel.Inv, ListsOK, LiveOK, ObjSize;
      SlotsApart(h.slabs[o1.page].cls, o1.index, o2.index);
    } else {
      ExtentInHome(h, o1);
      ExtentInHome(h, o2);
      HomeIsUsed(h, o1);
      HomeIsUsed(h, o2);
      UsedBlocksApart(h, HomeBlock(h, o1), HomeBlock(h, o2));
    }
  }

  /** A live allocation is at least as large as requested, and lies in the 16 MB heap. */
  lemma LiveInHeap(h: Heap, o: Obj)
    requires Core(h) && o in h.live
    ensures IsObject(h.buddy.used, h.slabs, o)
    ensures 0 < h.live[o] <= Extent(h, o).hi - Extent(h, o).lo
    ensures Extent(h, o).hi <= TOTAL_PAGES * PAGE_SIZE
  {
    ExtentInHome(h, o);
    HomeIsUsed(h, o);
    var b := HomeBlock(h, o);
    ScaleMonotone(b.page + Pow2(b.order), TOTAL_PAGES);
  }

  // ---------- the allocator's own memory ----------

  /** Bytes the allocator itself reads and writes: free-block nodes, slab headers, links in free slots. */
  datatype Meta = FreeNode(block: Block) | SlabHeader(page: nat) | SlotLink(page: nat, index: nat)

  ghost predicate IsMeta(h: Heap, m: Meta) {
    match m
    case FreeNode(b) => b in FreeSet(h.buddy.lists)
    case SlabHeader(p) => p in h.slabs
    case SlotLink(p, j) => p in h.slabs && j in h.slabs[p].chain
  }

  ghost function MetaRange(h: Heap, m: Meta): Range
    requires IsMeta(h, m)
  {
    match m
    case FreeNode(b) => Range(b.page * PAGE_SIZE, b.page * PAGE_SIZE + 16)
    case SlabHeader(p) => Range(p * PAGE_SIZE, p * PAGE_SIZE + HEADER)
    case SlotLink(p, j) =>
      var lo := p * PAGE_SIZE + SlotOffset(h.slabs[p].cls, j);
      Range(lo, lo + 8)
  }

  ghost function MetaBlock(h: Heap, m: Meta): Block
    requires IsMeta(h, m)
  {
    match m
    case FreeNode(b) => b
    case SlabHeader(p) => Block(p, 0)
    case SlotLink(p, _) => Block(p, 0)
  }

  lemma MetaInBlock(h: Heap, m: Meta)
    requires Core(h) && IsMeta(h, m)
    ensures MetaBlock(h, m) in FreeSet(h.buddy.lists) + UsedSet(h.buddy.used)
    ensures BlockRange(MetaBlock(h, m)).lo <= MetaRange(h, m).lo && MetaRange(h, m).hi <= BlockRange(MetaBlock(h, m)).hi
  {
    hide BuddyModel.Inv, ListsOK, LiveOK, ObjSize;
    assert Pow2(0) == 1;
    if m.SlotLink? {
      SlotFits(h.slabs[m.page].cls, m.index);
      ClassSizes(h.slabs[m.page].cls);
    }
    if !m.FreeNode? {
      assert Block(m.page, 0) in UsedSet(h.buddy.used);
    } else {
      ScaleMonotone(1, Pow2(m.block.order));
    }
  }

  /** A live allocation overlaps no free-block node, no slab header and no free-slot link. */
  lemma LiveAvoidsMeta(h: Heap, o: Obj, m: Meta)
    requires Core(h) && o in h.live && IsMeta(h, m)
    ensures IsObject(h.buddy.used, h.slabs, o)
    ensures Disjoint(Extent(h, o), MetaRange(h, m))
  {
    ExtentInHome(h, o);
    HomeIsUsed(h, o);
    MetaInBlock(h, m);
    var b := HomeBlock(h, o);
    if b != MetaBlock(h, m) {
      UsedBlocksApart(h, b, MetaBlock(h, m));
    } else {
      SameBlockMeta(h, o, m);
    }
  }

  lemma SameBlockMeta(h: Heap, o: Obj, m: Meta)
    requires Core(h) && o in h.live && IsMeta(h, m) && HomeBlock(h, o) == MetaBlock(h, m)
    ensures IsObject(h.buddy.used, h.slabs, o) && Disjoint(Extent(h, o), MetaRange(h, m))
  {
    LiveIsObject(h, o);
    ExtentInHome(h, o);
    HomeIsUsed(h, o);
    assert !m.FreeNode?;
    hide BuddyModel.Inv, ListsOK, LiveOK, ObjSize;
    if m.SlotLink? {
      SlotsApart(h.slabs[o.page].cls, o.index, m.index);
      ClassSizes(h.slabs[o.page].cls);
    }
  }

  /** No two parts of the allocator's own memory overlap. */
  lemma MetaDisjoint(h: Heap, m1: Meta, m2: Meta)
    requires Core(h) && IsMeta(h, m1) && IsMeta(h, m2) && m1 != m2
    ensures Disjoint(MetaRange(h, m1), MetaRange(h, m2))
  {
    MetaInBlock(h, m1);
    MetaInBlock(h, m2);
    if MetaBlock(h, m1) != MetaBlock(h, m2) {
      hide MetaBlock, MetaRange, IsMeta;
      UsedBlocksApart(h, MetaBlock(h, m1), MetaBlock(h, m2));
    } else {
      FreeNotSlab(h, m1, m2);
      FreeNotSlab(h, m2, m1);
      SamePageMeta(h, m1, m2);
    }
  }

  lemma SamePageMeta(h: Heap, m1: Meta, m2: Meta)
    requires Core(h) && IsMeta(h, m1) && IsMeta(h, m2) && m1 != m2
    requires MetaBlock(h, m1) == MetaBlock(h, m2) && (m1.FreeNode? <==> m2.FreeNode?)
    ensures Disjoint(MetaRange(h, m1), MetaRange(h, m2))
  {
    hide BuddyModel.Inv, ListsOK, LiveOK, ObjSize;
    match (m1, m2)
    case (FreeNode(_), FreeNode(_)) =>
    case (SlabHeader(_), SlabHeader(_)) =>
    case (SlotLink(p, i), SlotLink(_, j)) =>
      ClassSizes(h.slabs[p].cls);
      SlotsApart(h.slabs[p].cls, i, j);
    case _ =>
  }

  lemma FreeNotSlab(h: Heap, m1: Meta, m2: Meta)
    requires Core(h) && IsMeta(h, m1) && IsMeta(h, m2) && MetaBlock(h, m1) == MetaBlock(h, m2)
    ensures m1.FreeNode? ==> m2.FreeNode?
  {
    if !m2.FreeNode? {
      assert Block(m2.page, 0) in UsedSet(h.buddy.used);
    }
  }

  // ---------- reclamation ----------

  /** A slab that holds no live object is not kept, so with nothing live there is no slab. */
  lemma NoLiveNoSlab(h: Heap)
    requires HeapInv(h) && h.live == map[]
    ensures h.slabs == map[]
  {
    forall p
      ensures p !in h.slabs
    {
      if p in h.slabs {
        DistinctBound(h.slabs[p].chain, Capacity(h.slabs[p].cls));
        var j: int :| 0 <= j < Capacity(h.slabs[p].cls) && j !in h.slabs[p].chain;
        LiveIsObject(h, Slot(p, j));
      }
    }
  }

  /** Full reclamation: when every allocation has been freed the heap is in its initial state again. */
  lemma ReclaimedIsInit(h: Heap)
    requires HeapInv(h) && h.live == map[]
    ensures h == InitHeap()
  {
    NoLiveNoSlab(h);
    forall p
      ensures p !in h.buddy.used
    {
      LiveIsObject(h, Large(p));
    }
    assert h.buddy.used == map[];
    EmptyIsInit(h.buddy);
    forall c | 0 <= c < NUM_CACHES
      ensures h.partial[c] == [] && h.full[c] == []
    {
      forall p
        ensures p !in h.partial[c] && p !in h.full[c]
      {
        assert p !in h.slabs;
      }
      HasElement(h.partial[c]);
      HasElement(h.full[c]);
    }
  }

  // ---------- runs ----------

  datatype Op = Malloc(size: nat) | Release(o: Obj)

  /** A caller frees only what it was given and has not freed. */
  ghost predicate Legal(h: Heap, op: Op) {
    op.Release? ==> op.o in h.live
  }

  ghost function Step(h: Heap, op: Op): Heap
    requires HeapInv(h) && Legal(h, op)
  {
    match op
    case Malloc(size) => Kmalloc(h, size).0
    case Release(o) => Kfree(h, o)
  }

  lemma StepKeepsInv(h: Heap, op: Op)
    requires HeapInv(h) && Legal(h, op)
    ensures HeapInv(Step(h, op))
  {
    match op
    case Malloc(size) => KmallocKeepsInv(h, size);
    case Release(o) => KfreeKeepsInv(h, o);
  }

  /** `t` can be reached from `h` by the calls of `ops`, each legal where it is made. */
  ghost predicate Reaches(h: Heap, ops: seq<Op>, t: Heap)
    requires HeapInv(h)
    decreases |ops|
  {
    if ops == [] then h == t
    else Legal(h, ops[0]) && (StepKeepsInv(h, ops[0]); Reaches(Step(h, ops[0]), ops[1..], t))
  }

  /** `t` is the heap after `init_buddy`, `init_slab` and the calls of `ops`. */
  ghost predicate Reachable(ops: seq<Op>, t: Heap) {
    InitHeapInv();
    Reaches(InitHeap(), ops, t)
  }

  lemma {:induction false} RunKeepsInv(h: Heap, ops: seq<Op>, t: Heap)
    requires HeapInv(h) && Reaches(h, ops, t)
    ensures HeapInv(t)
    decreases |ops|
  {
    if ops != [] {
      StepKeepsInv(h, ops[0]);
      RunKeepsInv(Step(h, ops[0]), ops[1..], t);
    }
  }

  /** Safety over whole runs: in every reachable heap the live allocations are large enough, inside the heap, apart
      from each other and apart from the allocator's own memory. */
  lemma RunsAreSafe(ops: seq<Op>, t: Heap)
    requires Reachable(ops, t)
    ensures HeapInv(t)
    ensures forall o :: o in t.live ==>
              && IsObject(t.buddy.used, t.slabs, o)
              && t.live[o] <= Extent(t, o).hi - Extent(t, o).lo && Extent(t, o).hi <= TOTAL_PAGES * PAGE_SIZE
    ensures forall o1, o2 :: o1 in t.live && o2 in t.live && o1 != o2 ==> Disjoint(Extent(t, o1), Extent(t, o2))
    ensures forall o, m :: o in t.live && IsMeta(t, m) ==> Disjoint(Extent(t, o), MetaRange(t, m))
  {
    hide HeapInv, Core, Extent, IsObject, MetaRange, Disjoint, IsMeta, Reaches;
    InitHeapInv();
    RunKeepsInv(InitHeap(), ops, t);
    forall o | o in t.live
      ensures IsObject(t.buddy.used, t.slabs, o) &&
              t.live[o] <= Extent(t, o).hi - Extent(t, o).lo && Extent(t, o).hi <= TOTAL_PAGES * PAGE_SIZE
    {
      LiveInHeap(t, o);
    }
    forall o1, o2 | o1 in t.live && o2 in t.live && o1 != o2
      ensures Disjoint(Extent(t, o1), Extent(t, o2))
    {
      LiveDisjoint(t, o1, o2);
    }
    forall o, m | o in t.live && IsMeta(t, m)
      ensures Disjoint(Extent(t, o), MetaRange(t, m))
    {
      LiveAvoidsMeta(t, o, m);
    }
  }

  /** Reclamation over whole runs. */
  lemma RunReclaims(ops: seq<Op>, t: Heap)
    requires Reachable(ops, t) && t.live == map[]
    ensures t == InitHeap()
  {
    InitHeapInv();
    RunKeepsInv(InitHeap(), ops, t);
    ReclaimedIsInit(t);
  }

  // ---------- round trip and failure ----------

  /** Reopening a slab right after a pop puts the slab lists back in their old order. */
  lemma PopThenReopen(g: Heap, c: nat, size: nat)
    requires CanPop(g, c) && g.slabs[g.partial[c][0]].cls == c
    ensures var (r, o) := Pop(g, c, size);
            o.page in r.slabs && r.slabs[o.page].cls == c && Reopen(r, o.page) == r.(partial := g.partial, full := g.full)
  {
    var p := g.partial[c][0];
    assert g.partial[c] == [p] + g.partial[c][1..];
    assert g.partial[c := g.partial[c][1..]][c := g.partial[c]] == g.partial;
    var full := [p] + g.full[c];
    assert Remove(full, p) == g.full[c];
    assert g.full[c := full][c := g.full[c]] == g.full;
  }

  /** Returning the slot just popped restores the chain, or drops a slab whose every slot is free. */
  lemma ReturnAfterPop(g: Heap, c: nat, size: nat)
    requires CanPop(g, c) && g.slabs[g.partial[c][0]].cls == c && Pop(g, c, size).1 !in g.live
    requires var p := g.partial[c][0]; p in g.buddy.used && g.buddy.used[p] <= MAX_ORDERS && |g.buddy.lists| == MAX_ORDERS + 1
    ensures var p := g.partial[c][0];
            var (r, o) := Pop(g, c, size);
            var u := Return(r.(partial := g.partial, full := g.full), o);
            if |g.slabs[p].chain| == Capacity(c) then
              u == Heap(Free(g.buddy, p), g.slabs - {p}, g.partial[c := Remove(g.partial[c], p)], g.full, g.live)
            else u == g
  {
    hide Free, Capacity, Remove;
    var p := g.partial[c][0];
    var s := g.slabs[p];
    var (r, o) := Pop(g, c, size);
    assert [s.chain[0]] + s.chain[1..] == s.chain;
    assert r.slabs[p := s] == g.slabs && r.slabs - {p} == g.slabs - {p};
    assert g.live[o := size] - {o} == g.live;
  }

  /** slab_free right after slab_alloc, in terms of the heap in which the cache has a partial slab. */
  lemma SlabRoundTrip(h: Heap, c: nat, size: nat)
    requires HeapInv(h) && c < NUM_CACHES && 0 < size <= ObjSize(c) && SlabAlloc(h, c, size).1.Some?
    ensures var (r, a) := SlabAlloc(h, c, size);
            && Core(r) && a.value in r.live && a.value.Slot? && a.value.page in r.slabs
            && SlabFree(r, a.value).(buddy := h.buddy) == h && SlabFree(r, a.value).buddy.used == h.buddy.used
  {
    SlabAllocKeepsInv(h, c, size);
    SlabAllocClass(h, c, size);
    GrowKeepsCore(h, c);
    var g := Grow(h, c).value;
    var p := g.partial[c][0];
    assert p in g.partial[c] && p in g.slabs && g.slabs[p].cls == c;
    PopKeepsCore(g, c, size);
    PopThenReopen(g, c, size);
    FreeKeepsInv(g.buddy, p);
    assert |g.buddy.lists| == MAX_ORDERS + 1;
    ReturnAfterPop(g, c, size);
    if h.partial[c] == [] {
      GrownPage(h, c);
    } else {
      assert |h.slabs[p].chain| < Capacity(c);
    }
    hide HeapInv, Core, Pop, Grow, Return, Reopen, Free, Capacity;
  }

  /** A new slab has every slot free, and taking it away again undoes its creation. */
  lemma GrownPage(h: Heap, c: nat)
    requires HeapInv(h) && c < NUM_CACHES && h.partial[c] == [] && Grow(h, c).Some?
    ensures var g := Grow(h, c).value;
            && g.partial[c] != [] && g.partial[c][0] in g.slabs
            && var p := g.partial[c][0];
               && |g.slabs[p].chain| == Capacity(c) && g.slabs - {p} == h.slabs && g.partial[c := Remove(g.partial[c], p)] == h.partial
               && g.full == h.full && g.live == h.live
               && p in g.buddy.used && g.buddy.used[p] <= MAX_ORDERS && |g.buddy.lists| == MAX_ORDERS + 1 && Free(g.buddy, p).used == h.buddy.used
  {
    AllocKeepsInv(h.buddy, 0);
    FreeUndoesAlloc(h.buddy, 0);
    var Allocated(b, p) := Alloc(h.buddy, 0);
    assert p !in h.slabs;
    hide HeapInv, Core, BuddyModel.Inv, Alloc, Free, Capacity;
    assert h.slabs[p := FreshSlab(c)] - {p} == h.slabs;
    assert Remove([p], p) == [];
    assert h.partial[c := [p]][c := []] == h.partial;
  }

  /** kfree undoes kmalloc: live objects, slabs, slab lists and used blocks are exactly what they were, and so is the
      set of free blocks; only the order in which equal-sized free blocks are listed may differ. */
  lemma KfreeUndoesKmalloc(h: Heap, size: nat)
    requires HeapInv(h) && Kmalloc(h, size).1.Some?
    ensures var (r, a) := Kmalloc(h, size);
            && Core(r) && a.value in r.live
            && var u := Kfree(r, a.value);
               u.(buddy := h.buddy) == h && u.buddy.used == h.buddy.used && FreeSet(u.buddy.lists) == FreeSet(h.buddy.lists)
  {
    KmallocKeepsInv(h, size);
    var (r, a) := Kmalloc(h, size);
    KfreeKeepsInv(r, a.value);
    LiveIsObject(r, a.value);
    var u := Kfree(r, a.value);
    if size > MAX_SMALL {
      LargeRoundTrip(h, size);
    } else {
      SlabRoundTrip(h, ClassFor(size, 0), size);
    }
    hide Kmalloc, SlabAlloc, SlabFree, LargeAlloc, LargeFree, IsObject;
    SameUsedSameFree(h, u);
  }

  lemma SameUsedSameFree(h: Heap, u: Heap)
    requires Core(h) && Core(u) && u.buddy.used == h.buddy.used
    ensures FreeSet(u.buddy.lists) == FreeSet(h.buddy.lists)
  {
    FreeDetermined(FreeSet(u.buddy.lists), UsedSet(u.buddy.used), FreeSet(h.buddy.lists), UsedSet(h.buddy.used));
  }

  lemma LargeRoundTrip(h: Heap, size: nat)
    requires HeapInv(h) && 0 < size && LargeAlloc(h, size).1.Some?
    ensures var (r, a) := LargeAlloc(h, size);
            && Core(r) && a.value in r.live && a.value.Large? && a.value.page !in r.slabs
            && var u := LargeFree(r, a.value);
               u.(buddy := h.buddy) == h && u.buddy.used == h.buddy.used
  {
    LargeAllocKeepsInv(h, size);
    var (r, a) := LargeAlloc(h, size);
    LiveIsObject(r, a.value);
    FreeUndoesAlloc(h.buddy, OrderFor(size, 0));
    hide HeapInv, Core, BuddyModel.Inv, Alloc;
    assert h.live[a.value := size] - {a.value} == h.live;
  }

  /** No aligned run of 2^order pages is free of allocated blocks. */
  ghost predicate NoRun(h: Heap, order: nat) {
    forall b: Block :: b.order == order ==> !Unallocated(UsedSet(h.buddy.used), b)
  }

  /** The objects of cache c are the smallest that hold `size` bytes. */
  predicate FirstToHold(size: nat, c: nat) { size <= ObjSize(c) && (c > 0 ==> ObjSize(c - 1) < size) }

  lemma FirstClass(size: nat)
    requires size <= MAX_SMALL
    ensures ClassFor(size, 0) < NUM_CACHES
    ensures forall c: nat :: c < NUM_CACHES ==> (FirstToHold(size, c) <==> c == ClassFor(size, 0))
  {
    hide ObjSize;
    ClassSizes(7);
    forall c: nat | c < NUM_CACHES
      ensures FirstToHold(size, c) <==> c == ClassFor(size, 0)
    {
      var r := ClassFor(size, 0);
      if r < c { ObjSizeGrows(r, c - 1); }
    }
  }

  lemma ObjSizeGrows(c: nat, d: nat)
    requires c <= d
    ensures ObjSize(c) <= ObjSize(d)
  {
    Pow2Monotone(c, d);
  }

  /** Without a run of one order there is none of a larger one. */
  lemma LargerRuns(h: Heap, size: nat)
    ensures NoRun(h, OrderFor(size, 0)) <==> forall k: nat :: size <= Pow2(k) * PAGE_SIZE ==> NoRun(h, k)
  {
    hide Unallocated;
    var r := OrderFor(size, 0);
    forall k: nat | size <= Pow2(k) * PAGE_SIZE && NoRun(h, r)
      ensures NoRun(h, k)
    {
      forall b: Block | b.order == k
        ensures !Unallocated(UsedSet(h.buddy.used), b)
      {
        if Unallocated(UsedSet(h.buddy.used), b) { LowerPart(UsedSet(h.buddy.used), b, r); }
      }
    }
  }

  /** kmalloc returns NULL exactly for size 0, for a large size with no unallocated aligned run that long, and for a
      small size whose cache has no partial slab while no page is unallocated. */
  lemma KmallocFailsIff(h: Heap, size: nat)
    requires HeapInv(h)
    ensures Kmalloc(h, size).1.None? <==>
              || size == 0
              || (size > 2048 && forall k: nat :: size <= Pow2(k) * PAGE_SIZE ==> NoRun(h, k))
              || (0 < size <= 2048 && NoRun(h, 0) && exists c :: 0 <= c < |h.partial| && FirstToHold(size, c) && h.partial[c] == [])
  {
    ClassSizes(0);
    LargerRuns(h, size);
    if size <= MAX_SMALL { FirstClass(size); }
    AllocFailsIffNoRun(h.buddy, 0);
    AllocFailsIffNoRun(h.buddy, OrderFor(size, 0));
    hide HeapInv, Core, BuddyModel.Inv, Alloc, Unallocated;
  }

  // ---------- the size bound ----------

  /** The value of `s` after n turns of the shifting loop in kmalloc, in 64-bit arithmetic. */
  function Shifted(n: nat): nat {
    if n == 0 then PAGE_SIZE else Shifted(n - 1) * 2 % 0x1_0000_0000_0000_0000
  }

  lemma {:induction false} ShiftedValue(n: nat)
    ensures Shifted(n) == if n < 52 then Pow2(12 + n) else 0
    ensures n < 52 ==> Shifted(n) <= 0x8000_0000_0000_0000
  {
    hide Pow2;
    Pow2Values();
    if n > 0 {
      ShiftedValue(n - 1);
      ShiftedNext(n);
      Pow2Step(11 + n);
      TopShift();
      if n < 52 { Pow2Monotone(12 + n, 63); }
    }
  }

  lemma ShiftedNext(n: nat)
    requires 0 < n
    ensures Shifted(n) == Shifted(n - 1) * 2 % 0x1_0000_0000_0000_0000
  {
  }

  lemma TopShift()
    ensures Pow2(63) == 0x8000_0000_0000_0000
  {
    hide Pow2;
    Pow2Values();
    Pow2Adds(12, 12);
    Pow2Adds(24, 24);
    Pow2Adds(48, 11);
    Pow2Adds(59, 4);
  }

  /** The shifting loop reaches the requested size if and only if the size is at most 2^63. */
  lemma ShiftLoopEndsIff(size: nat)
    ensures (exists n: nat :: Shifted(n) >= size) <==> size <= 0x8000_0000_0000_0000
  {
    hide Pow2, Shifted;
    TopShift();
    ShiftedValue(51);
    forall n: nat
      ensures Shifted(n) <= 0x8000_0000_0000_0000
    {
      ShiftedValue(n);
    }
  }
}
