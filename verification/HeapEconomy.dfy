/** What the heap spends on a request: which block or slot is handed out, and that it is not larger than need be. */
module HeapEconomy {
  import opened Basics
  import opened Blocks
  import opened BuddyTiling
  import opened BuddyModel
  import opened HeapModel
  import opened HeapTheorems

  // ---------- which block the buddy allocator takes, and where it puts one back ----------

  lemma {:induction false} SplitDownIs(lists: seq<seq<nat>>, p: nat, i: nat, order: nat, j: nat)
    requires order <= i < |lists| && j < |lists|
    ensures SplitDown(lists, p, i, order)[j] == if order <= j < i then [p + Pow2(j)] + lists[j] else lists[j]
    decreases i
  {
    hide Pow2;
    if order < i { SplitDownIs(Push(lists, p + Pow2(i - 1), i - 1), p, i - 1, order, j); }
  }

  /** The block comes from the list of order i. Its upper half of each order down to the one asked for becomes free; all other
      blocks stay. */
  ghost predicate TakenFrom(s: State, t: State, p: nat, order: nat, i: nat) {
    && order <= i < |s.lists| == |t.lists| && t.used == s.used[p := order]
    && s.lists[i] == [p] + t.lists[i]
    && (forall j :: order <= j < i ==> s.lists[j] == [] && t.lists[j] == [p + Pow2(j)])
    && (forall j :: 0 <= j < |s.lists| && (j < order || i < j) ==> t.lists[j] == s.lists[j])
  }

  /** Best fit: no smaller free block would do; of the blocks of its order it is the one that became free last, and the lower part
      of it is handed out. */
  lemma AllocTakes(s: State, order: nat)
    ensures match Alloc(s, order)
            case Exhausted => forall j :: order <= j < |s.lists| ==> s.lists[j] == []
            case Allocated(t, p) => exists i :: TakenFrom(s, t, p, order, i)
  {
    hide SplitDown, Pow2;
    var i := FirstFit(s.lists, order);
    if i < |s.lists| {
      var p := s.lists[i][0];
      var l := s.lists[i := s.lists[i][1..]];
      forall j: nat | j < |s.lists|
        ensures SplitDown(l, p, i, order)[j] == if order <= j < i then [p + Pow2(j)] + l[j] else l[j]
      {
        SplitDownIs(l, p, i, order, j);
      }
      assert TakenFrom(s, Alloc(s, order).after, p, order, i);
    }
  }

  /** The block of order k around b. */
  function Grown(b: Block, k: nat): Block
    decreases k
  {
    if k <= b.order then b else Parent(Grown(b, k - 1))
  }

  lemma {:induction false} GrownParent(b: Block, k: nat)
    requires b.order < k
    ensures Grown(b, k) == Grown(Parent(b), k)
    decreases k
  {
    if b.order + 1 < k { GrownParent(b, k - 1); }
  }

  lemma {:induction false} GrownAround(b: Block, k: nat)
    requires Placed(b) && b.order <= k <= MAX_ORDERS
    ensures Placed(Grown(b, k)) && Grown(b, k).order == k && Inside(b, Grown(b, k))
    decreases k
  {
    if b.order < k {
      GrownAround(b, k - 1);
      ChildInsideParent(Grown(b, k - 1));
    }
  }

  /** Block b has been merged up to order k: the buddy of each order below was free and is gone, the one of order k is not free,
      and the block of order k heads its list. */
  ghost predicate MergedUp(lists: seq<seq<nat>>, r: seq<seq<nat>>, b: Block, k: nat) {
    && b.order <= k < |lists| == |r| == MAX_ORDERS + 1
    && r[k] == [Grown(b, k).page] + lists[k] && (k < MAX_ORDERS ==> Buddy(Grown(b, k)).page !in lists[k])
    && (forall j :: b.order <= j < k ==> Buddy(Grown(b, j)).page in lists[j] && r[j] == Remove(lists[j], Buddy(Grown(b, j)).page))
    && (forall j :: 0 <= j <= MAX_ORDERS && (j < b.order || k < j) ==> r[j] == lists[j])
  }

  /** A block given back is merged exactly as far as its buddies are free, and is the first of its order to be handed out again. */
  lemma {:induction false} ReleaseMerges(lists: seq<seq<nat>>, b: Block) returns (k: nat)
    requires b.order < |lists| == MAX_ORDERS + 1
    ensures MergedUp(lists, BuddyModel.Release(lists, b), b, k)
    decreases MAX_ORDERS - b.order
  {
    hide Buddy, Parent, Remove;
    if b.order < MAX_ORDERS && Buddy(b).page in lists[b.order] {
      var l := Unlink(lists, Buddy(b).page, b.order);
      ParentOrder(b);
      k := ReleaseMerges(l, Parent(b));
      forall j | b.order < j <= MAX_ORDERS
        ensures Grown(Parent(b), j) == Grown(b, j) && l[j] == lists[j]
      {
        GrownParent(b, j);
      }
    } else {
      k := b.order;
    }
  }

  lemma ParentOrder(b: Block)
    ensures Parent(b).order == b.order + 1
  {
  }

  // ---------- which block or slot kmalloc answers ----------

  /** Order k is the first whose blocks hold `size` bytes. */
  predicate BestOrder(size: nat, k: nat) {
    size <= Pow2(k) * PAGE_SIZE && (k > 0 ==> Pow2(k - 1) * PAGE_SIZE < size)
  }

  lemma OrderIs(size: nat, k: nat)
    requires BestOrder(size, k)
    ensures OrderFor(size, 0) == k
  {
    hide Pow2;
    var r := OrderFor(size, 0);
    if r < k { Pow2Monotone(r, k - 1); }
  }

  /** A small request is served from the first partial slab of the best class; only when there is none is a page taken, whose first
      slot it gets. */
  lemma SmallServed(h: Heap, size: nat, c: nat)
    requires HeapInv(h) && 0 < size <= MAX_SMALL && c < NUM_CACHES && FirstToHold(size, c)
    ensures Core(h) && c < |h.partial|
    ensures var (r, a) := Kmalloc(h, size);
            if h.partial[c] != [] then
              var p := h.partial[c][0];
              p in h.slabs && h.slabs[p].chain != [] && a == Some(Slot(p, h.slabs[p].chain[0])) && r.buddy == h.buddy && r.slabs.Keys == h.slabs.Keys
            else match Alloc(h.buddy, 0)
                 case Exhausted => a == None && r == h
                 case Allocated(b, p) => a == Some(Slot(p, 0)) && r.buddy == b && r.slabs.Keys == h.slabs.Keys + {p}
  {
    hide Core, BuddyModel.Inv, ClassFor, Alloc, ObjSize, Capacity, HeapInv, Grow, Pop, SlabAlloc, CanPop;
    CoreOf(h);
    CacheCount(h);
    FirstClass(size);
    KmallocSmall(h, size, c);
    GrowKeepsCore(h, c);
    GrowIs(h, c);
    if Grow(h, c).Some? { PopIs(Grow(h, c).value, c, size); }
  }

  lemma CoreOf(h: Heap)
    requires HeapInv(h)
    ensures Core(h)
  {
  }

  lemma KmallocSmall(h: Heap, size: nat, c: nat)
    requires Core(h) && 0 < size <= MAX_SMALL && c < NUM_CACHES && c == ClassFor(size, 0)
    ensures match Grow(h, c)
            case None => Kmalloc(h, size) == (h, None)
            case Some(g) => CanPop(g, c) && Kmalloc(h, size) == (Pop(g, c, size).0, Some(Pop(g, c, size).1))
  {
    hide Core, ClassFor, Grow, Pop, CanPop;
    GrowKeepsCore(h, c);
  }

  lemma PopIs(g: Heap, c: nat, size: nat)
    requires CanPop(g, c)
    ensures var p := g.partial[c][0];
            && c < |g.partial| && p in g.slabs && g.slabs[p].chain != []
            && Pop(g, c, size).1 == Slot(p, g.slabs[p].chain[0])
            && Pop(g, c, size).0.buddy == g.buddy && Pop(g, c, size).0.slabs.Keys == g.slabs.Keys
  {
  }

  lemma GrowIs(h: Heap, c: nat)
    requires c < |h.partial| && c < NUM_CACHES
    ensures if h.partial[c] != [] then Grow(h, c) == Some(h)
            else match Alloc(h.buddy, 0)
                 case Exhausted => Grow(h, c) == None
                 case Allocated(b, p) =>
                   && Grow(h, c).Some?
                   && var g := Grow(h, c).value;
                      && c < |g.partial| && g.partial[c] == [p] && g.buddy == b && g.slabs.Keys == h.slabs.Keys + {p}
                      && g.slabs[p].chain != [] && g.slabs[p].chain[0] == 0
  {
    hide Alloc, Capacity, ObjSize;
    ClassSizes(c);
  }

  /** A large request gets a block of the best order. */
  lemma LargeServed(h: Heap, size: nat, k: nat)
    requires HeapInv(h) && MAX_SMALL < size && BestOrder(size, k)
    ensures Core(h)
    ensures var (r, a) := Kmalloc(h, size);
            && r.slabs == h.slabs && r.partial == h.partial && r.full == h.full
            && match Alloc(h.buddy, k)
               case Exhausted => a == None && r == h
               case Allocated(b, p) => a == Some(Large(p)) && r.buddy == b
  {
    OrderIs(size, k);
    hide Core, BuddyModel.Inv, OrderFor, Alloc;
  }

  // ---------- what kfree does to a slab ----------

  /** The slot heads its slab's list of free slots, and a slab that had none heads the partial list of its cache; a slab left with
      nothing live gives its page back. */
  lemma SlotFreed(h: Heap, o: Obj)
    requires HeapInv(h) && o in h.live && o.Slot?
    ensures Core(h) && o.page in h.slabs && h.slabs[o.page].cls < |h.partial| == |h.full|
    ensures o.page in h.buddy.used && h.buddy.used[o.page] <= MAX_ORDERS && |h.buddy.lists| == MAX_ORDERS + 1
    ensures var s, r := h.slabs[o.page], Kfree(h, o);
            var c := s.cls;
            if |s.chain| + 1 == Capacity(c) then
              r.slabs == h.slabs - {o.page} && r.buddy == BuddyModel.Free(h.buddy, o.page)
            else
              && r.slabs == h.slabs[o.page := Slab(c, [o.index] + s.chain)] && r.buddy == h.buddy && |r.partial| == |h.partial|
              && r.partial[c] == (if s.chain == [] then [o.page] + h.partial[c] else h.partial[c])
              && r.full[c] == (if s.chain == [] then Remove(h.full[c], o.page) else h.full[c])
  {
    hide BuddyModel.Inv, LiveOK, ListsOK, Capacity, BuddyModel.Free, Remove, Retained, Distinct;
    ChainRoom(h, o);
    FreeKeepsInv(h.buddy, o.page);
    ListCounts(h);
  }

  lemma ListCounts(h: Heap)
    requires Core(h)
    ensures |h.partial| == |h.full| == NUM_CACHES && |h.buddy.lists| == MAX_ORDERS + 1
  {
  }

  /** A slot that was freed is the next to be handed out for its size class, if its slab was full or is the first of the partial
      ones, and keeps another live object. */
  lemma LastFreedFirst(h: Heap, o: Obj, size: nat)
    requires HeapInv(h) && o in h.live && o.Slot? && o.page in h.slabs && h.slabs[o.page].cls < |h.partial|
    requires 0 < size <= MAX_SMALL && FirstToHold(size, h.slabs[o.page].cls) && |h.slabs[o.page].chain| + 1 < Capacity(h.slabs[o.page].cls)
    requires h.slabs[o.page].chain == [] || h.partial[h.slabs[o.page].cls][..1] == [o.page]
    ensures HeapInv(Kfree(h, o)) && Kmalloc(Kfree(h, o), size).1 == Some(o)
  {
    hide HeapInv, Kfree, Kmalloc, FirstToHold, Capacity;
    SlotFreed(h, o);
    KfreeKeepsInv(h, o);
    var r, c := Kfree(h, o), h.slabs[o.page].cls;
    assert r.partial[c] != [] && r.partial[c][0] == o.page by {
      if h.slabs[o.page].chain != [] { assert h.partial[c][..1][0] == o.page; }
    }
    SmallServed(r, size, c);
  }

  // ---------- over every run ----------

  /** A live object is a slot exactly if at most 2048 bytes were asked for, and less than twice those were granted, or 16. */
  ghost predicate Tight(h: Heap) {
    forall o :: o in h.live && IsObject(h.buddy.used, h.slabs, o) ==> TightFor(h, o)
  }

  ghost predicate TightFor(h: Heap, o: Obj)
    requires o in h.live && IsObject(h.buddy.used, h.slabs, o)
  {
    && (o.Slot? <==> h.live[o] <= 2048)
    && (Granted(h.buddy.used, h.slabs, o) == 16 || Granted(h.buddy.used, h.slabs, o) < 2 * h.live[o])
  }

  /** Blocks and slabs present in both heaps are the same size and class there. */
  ghost predicate SameHomes(h: Heap, r: Heap) {
    && (forall p :: p in h.buddy.used && p in r.buddy.used ==> r.buddy.used[p] == h.buddy.used[p])
    && (forall p :: p in h.slabs && p in r.slabs ==> r.slabs[p].cls == h.slabs[p].cls)
  }

  lemma TightKept(h: Heap, r: Heap, o: Obj)
    requires Core(h) && Core(r) && Tight(h) && SameHomes(h, r) && o in h.live && o in r.live && r.live[o] == h.live[o]
    ensures IsObject(r.buddy.used, r.slabs, o) && TightFor(r, o)
  {
    LiveIsObject(h, o);
    LiveIsObject(r, o);
    assert TightFor(h, o);
    hide Core, Pow2, ObjSize, Tight;
  }

  /** What a request gets is not twice what it asked for. */
  lemma ServedTight(h: Heap, size: nat)
    requires HeapInv(h) && Kmalloc(h, size).1.Some?
    ensures var (r, a) := Kmalloc(h, size);
            && Core(r) && a.value in r.live && IsObject(r.buddy.used, r.slabs, a.value) && TightFor(r, a.value) && SameHomes(h, r)
  {
    hide HeapInv, Core, Kmalloc, BuddyModel.Inv, ObjSize, Pow2, Alloc, Capacity;
    CoreOf(h);
    KmallocKeepsInv(h, size);
    var (r, a) := Kmalloc(h, size);
    CoreOf(r);
    LiveIsObject(r, a.value);
    SizePositive(h, size);
    if size <= MAX_SMALL {
      SmallTight(h, size, ClassFor(size, 0));
    } else {
      LargeTight(h, size, OrderFor(size, 0));
    }
  }

  lemma SizePositive(h: Heap, size: nat)
    requires Core(h) && Kmalloc(h, size).1.Some?
    ensures 0 < size
  {
  }

  lemma SmallTight(h: Heap, size: nat, c: nat)
    requires HeapInv(h) && 0 < size <= MAX_SMALL && c == ClassFor(size, 0) && Core(h) && Kmalloc(h, size).1.Some?
    ensures var (r, a) := Kmalloc(h, size);
            && a.value.Slot? && SameHomes(h, r) && a.value.page in r.slabs
            && (ObjSize(r.slabs[a.value.page].cls) == 16 || ObjSize(r.slabs[a.value.page].cls) < 2 * size)
  {
    hide HeapInv, Core, Grow, Pop, ObjSize, SameHomes, CanPop;
    CacheCount(h);
    KmallocSmall(h, size, c);
    GrowKeepsCore(h, c);
    var g := Grow(h, c).value;
    GrowHomes(h, c);
    PopHomes(g, c, size);
    HomesTwice(h, g, Kmalloc(h, size).0);
    ClassTight(size, c);
  }

  lemma ClassTight(size: nat, c: nat)
    requires c == ClassFor(size, 0) && c < NUM_CACHES
    ensures ObjSize(c) == 16 || ObjSize(c) < 2 * size
  {
    if c > 0 { assert ObjSize(c - 1) < size; }
  }

  lemma GrowHomes(h: Heap, c: nat)
    requires Core(h) && c < NUM_CACHES && Grow(h, c).Some?
    ensures var g := Grow(h, c).value;
            SameHomes(h, g) && CanPop(g, c) && g.slabs[g.partial[c][0]].cls == c && h.slabs.Keys <= g.slabs.Keys && h.buddy.used.Keys <= g.buddy.used.Keys
  {
    GrowKeepsCore(h, c);
    AllocKeepsInv(h.buddy, 0);
    hide BuddyModel.Inv, Alloc, LiveOK, Capacity;
    var g := Grow(h, c).value;
    assert g.partial[c][0] in g.partial[c];
  }

  lemma PopHomes(g: Heap, c: nat, size: nat)
    requires CanPop(g, c) && g.slabs[g.partial[c][0]].cls == c
    ensures var (r, o) := Pop(g, c, size);
            && SameHomes(g, r) && o.Slot? && o.page in r.slabs && r.slabs[o.page].cls == c
            && g.slabs.Keys <= r.slabs.Keys && g.buddy.used.Keys <= r.buddy.used.Keys
  {
  }

  lemma HomesTwice(h: Heap, g: Heap, r: Heap)
    requires SameHomes(h, g) && SameHomes(g, r) && h.slabs.Keys <= g.slabs.Keys && h.buddy.used.Keys <= g.buddy.used.Keys
    ensures SameHomes(h, r)
  {
  }

  lemma LargeTight(h: Heap, size: nat, k: nat)
    requires HeapInv(h) && MAX_SMALL < size && k == OrderFor(size, 0) && Core(h) && Kmalloc(h, size).1.Some?
    ensures var (r, a) := Kmalloc(h, size);
            && a.value.Large? && SameHomes(h, r) && a.value.page in r.buddy.used
            && Pow2(r.buddy.used[a.value.page]) * PAGE_SIZE < 2 * size
  {
    hide HeapInv, BuddyModel.Inv, ListsOK, LiveOK, SlabsOK, Alloc, Pow2, Unallocated;
    AllocKeepsInv(h.buddy, k);
    Pow2Values();
    if k > 0 { Pow2Step(k - 1); }
  }

  /** kfree moves no other object. */
  lemma FreedHomes(h: Heap, o: Obj)
    requires HeapInv(h) && o in h.live
    ensures Core(h) && SameHomes(h, Kfree(h, o))
  {
    LiveIsObject(h, o);
    if o.Slot? {
      SlotFreed(h, o);
      SlotFreedUsed(h, o);
    } else {
      FreeKeepsInv(h.buddy, o.page);
    }
    hide BuddyModel.Inv, LiveOK, ListsOK, Capacity, Kfree;
  }

  lemma SlotFreedUsed(h: Heap, o: Obj)
    requires HeapInv(h) && o in h.live && o.Slot?
    ensures forall p :: p in Kfree(h, o).buddy.used ==> p in h.buddy.used && Kfree(h, o).buddy.used[p] == h.buddy.used[p]
  {
    SlotFreed(h, o);
  }

  lemma StepTight(h: Heap, op: Op)
    requires HeapInv(h) && Legal(h, op) && Tight(h)
    ensures Tight(Step(h, op))
  {
    hide HeapInv, Core, Kmalloc, Kfree, IsObject, TightFor, SameHomes, Tight;
    StepKeepsInv(h, op);
    var r := Step(h, op);
    CoreOf(h);
    CoreOf(r);
    match op
    case Malloc(size) =>
      KmallocKeepsInv(h, size);
      if Kmalloc(h, size).1.Some? {
        ServedTight(h, size);
        AllTight(h, r, Kmalloc(h, size).1.value);
      }
    case Release(o) =>
      KfreeKeepsInv(h, o);
      FreedHomes(h, o);
      AllTight(h, r, o);
  }

  lemma AllTight(h: Heap, r: Heap, o: Obj)
    requires Core(h) && Core(r) && Tight(h) && SameHomes(h, r)
    requires forall x :: x in r.live && x != o ==> x in h.live && r.live[x] == h.live[x]
    requires o in r.live && IsObject(r.buddy.used, r.slabs, o) ==> TightFor(r, o)
    ensures Tight(r)
  {
    hide Core, IsObject, TightFor, SameHomes;
    forall x | x in r.live && IsObject(r.buddy.used, r.slabs, x)
      ensures TightFor(r, x)
    {
      if x != o {
        hide Tight;
        TightKept(h, r, x);
      }
    }
  }

  lemma {:induction false} RunTight(h: Heap, ops: seq<Op>, t: Heap)
    requires HeapInv(h) && Tight(h) && Reaches(h, ops, t)
    ensures Tight(t)
    decreases |ops|
  {
    hide HeapInv, Tight, Legal, Step;
    if ops != [] {
      StepKeepsInv(h, ops[0]);
      StepTight(h, ops[0]);
      RunTight(Step(h, ops[0]), ops[1..], t);
    }
  }

  /** In every reachable heap an object lives in a slab exactly if at most 2048 bytes were asked for, and no object was granted twice
      what was asked for, apart from the smallest size of 16 bytes. */
  lemma NoMoreThanNeeded(ops: seq<Op>, t: Heap)
    requires Reachable(ops, t)
    ensures forall o :: o in t.live ==>
              && IsObject(t.buddy.used, t.slabs, o) && (o.Slot? <==> t.live[o] <= 2048)
              && (Granted(t.buddy.used, t.slabs, o) == 16 || Granted(t.buddy.used, t.slabs, o) < 2 * t.live[o])
  {
    hide HeapInv, Core, IsObject, Granted, Reaches;
    InitHeapInv();
    HeapTheorems.RunKeepsInv(InitHeap(), ops, t);
    RunTight(InitHeap(), ops, t);
    CoreOf(t);
    forall o | o in t.live
      ensures IsObject(t.buddy.used, t.slabs, o) && TightFor(t, o)
    {
      LiveIsObject(t, o);
    }
  }

  /** The caches hold objects of 16, 32, ... 2048 bytes, and a slab page as many of them as fit behind its header. */
  lemma CacheSizes(c: nat)
    requires c < NUM_CACHES
    ensures [16, 32, 64, 128, 256, 512, 1024, 2048][c] == ObjSize(c)
    ensures HEADER + Capacity(c) * ObjSize(c) <= PAGE_SIZE < HEADER + (Capacity(c) + 1) * ObjSize(c)
  {
    Pow2Values();
  }
}
