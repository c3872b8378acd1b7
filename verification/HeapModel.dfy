/** The kernel heap on values: slabs and large blocks over the buddy allocator, as kmalloc and kfree drive them. */
module HeapModel {
  import opened Basics
  import opened Blocks
  import opened BuddyTiling
  import opened BuddyModel

  const NUM_CACHES: nat := 8
  const HEADER: nat := 40        // bytes of a slab header, already a multiple of 8
  const MAX_SMALL: nat := 2048

  /** `chain` is the threaded free list of a slab page: slot numbers, first to be handed out first. */
  datatype Slab = Slab(cls: nat, chain: seq<nat>)

  /** A live allocation: a buddy block of its own, or one slot of a slab page. */
  datatype Obj = Large(page: nat) | Slot(page: nat, index: nat)

  /** `live` gives the requested size of every allocation that has not been freed. */
  datatype Heap = Heap(buddy: State, slabs: map<nat, Slab>, partial: seq<seq<nat>>, full: seq<seq<nat>>, live: map<Obj, nat>)

  function ObjSize(c: nat): (r: nat)
    ensures 1 <= r
  {
    16 * Pow2(c)
  }

  function Capacity(c: nat): nat { hide ObjSize; (PAGE_SIZE - HEADER) / ObjSize(c) }

  function SlotOffset(c: nat, j: nat): (r: nat)
    ensures HEADER <= r
  {
    HEADER + j * ObjSize(c)
  }

  function InitHeap(): Heap {
    Heap(Init(), map[], seq(NUM_CACHES, _ => []), seq(NUM_CACHES, _ => []), map[])
  }

  // ---------- invariant ----------

  ghost predicate ChainOK(s: Slab) {
    s.cls < NUM_CACHES && Distinct(s.chain) && forall j :: j in s.chain ==> j < Capacity(s.cls)
  }

  ghost predicate SlabsOK(used: map<nat, nat>, slabs: map<nat, Slab>) {
    forall p :: p in slabs ==> p in used && used[p] == 0 && ChainOK(slabs[p])
  }

  ghost predicate ListsOK(slabs: map<nat, Slab>, partial: seq<seq<nat>>, full: seq<seq<nat>>) {
    && |partial| == |full| == NUM_CACHES
    && (forall c :: 0 <= c < NUM_CACHES ==> Distinct(partial[c]) && Distinct(full[c]))
    && (forall c, p :: 0 <= c < NUM_CACHES ==> (p in partial[c] <==> p in slabs && slabs[p].cls == c && slabs[p].chain != []))
    && (forall c, p :: 0 <= c < NUM_CACHES ==> (p in full[c] <==> p in slabs && slabs[p].cls == c && slabs[p].chain == []))
  }

  ghost predicate IsObject(used: map<nat, nat>, slabs: map<nat, Slab>, o: Obj) {
    match o
    case Large(p) => p in used && p !in slabs
    case Slot(p, j) => p in slabs && j < Capacity(slabs[p].cls) && j !in slabs[p].chain
  }

  /** Bytes the allocator set aside for an object. */
  ghost function Granted(used: map<nat, nat>, slabs: map<nat, Slab>, o: Obj): nat
    requires IsObject(used, slabs, o)
  {
    match o
    case Large(p) => Pow2(used[p]) * PAGE_SIZE
    case Slot(p, j) => ObjSize(slabs[p].cls)
  }

  ghost predicate LiveOK(used: map<nat, nat>, slabs: map<nat, Slab>, live: map<Obj, nat>) {
    && (forall o :: o in live <==> IsObject(used, slabs, o))
    && (forall o :: o in live ==> 0 < live[o] <= Granted(used, slabs, o))
  }

  ghost predicate Core(h: Heap) {
    && BuddyModel.Inv(h.buddy)
    && SlabsOK(h.buddy.used, h.slabs)
    && ListsOK(h.slabs, h.partial, h.full)
    && LiveOK(h.buddy.used, h.slabs, h.live)
  }

  /** No slab is kept without a live object. */
  ghost predicate Retained(slabs: map<nat, Slab>) {
    forall p :: p in slabs ==> |slabs[p].chain| < Capacity(slabs[p].cls)
  }

  ghost predicate HeapInv(h: Heap) {
    Core(h) && Retained(h.slabs)
  }

  // ---------- operations ----------

  /** A slab whose every slot is free, threaded in address order. */
  function FreshSlab(c: nat): Slab { Slab(c, seq(Capacity(c), i => i)) }

  /** Make sure cache `c` has a partial slab, taking a page from the buddy allocator when it has none. */
  function Grow(h: Heap, c: nat): Option<Heap>
    requires c < |h.partial|
  {
    if h.partial[c] != [] then Some(h)
    else match Alloc(h.buddy, 0)
      case Exhausted => None
      case Allocated(b, p) =>
        Some(Heap(b, h.slabs[p := FreshSlab(c)], h.partial[c := [p]], h.full, h.live))
  }

  ghost predicate CanPop(h: Heap, c: nat) {
    && c < |h.partial| == |h.full| && h.partial[c] != []
    && h.partial[c][0] in h.slabs && h.slabs[h.partial[c][0]].chain != []
  }

  /** Hand out the first slot of the first partial slab; a slab left without free slots moves to the full list. */
  function Pop(h: Heap, c: nat, size: nat): (Heap, Obj)
    requires CanPop(h, c)
  {
    var p := h.partial[c][0];
    var s := h.slabs[p];
    var o := Slot(p, s.chain[0]);
    var slabs := h.slabs[p := s.(chain := s.chain[1..])];
    if |s.chain| == 1 then
      (Heap(h.buddy, slabs, h.partial[c := h.partial[c][1..]], h.full[c := [p] + h.full[c]], h.live[o := size]), o)
    else
      (Heap(h.buddy, slabs, h.partial, h.full, h.live[o := size]), o)
  }

  function SlabAlloc(h: Heap, c: nat, size: nat): (Heap, Option<Obj>)
    requires Core(h) && c < NUM_CACHES
  {
    match Grow(h, c)
    case None => (h, None)
    case Some(g) =>
      GrowKeepsCore(h, c);
      var (r, o) := Pop(g, c, size);
      (r, Some(o))
  }

  /** The first cache, from `c` up, whose objects hold `size` bytes. */
  function ClassFor(size: nat, c: nat): (r: nat)
    ensures c <= NUM_CACHES ==> c <= r <= NUM_CACHES
    ensures r < NUM_CACHES ==> size <= ObjSize(r)
    ensures forall i :: c <= i < r && i < NUM_CACHES ==> ObjSize(i) < size
    decreases NUM_CACHES - c
  {
    if c >= NUM_CACHES || size <= ObjSize(c) then c else ClassFor(size, c + 1)
  }

  /** The first order, from `k` up, whose blocks hold `size` bytes. */
  function OrderFor(size: nat, k: nat): (r: nat)
    ensures k <= r && size <= Pow2(r) * PAGE_SIZE
    ensures forall i :: k <= i < r ==> Pow2(i) * PAGE_SIZE < size
    decreases size - Pow2(k) * PAGE_SIZE
  {
    if size <= Pow2(k) * PAGE_SIZE then k else OrderFor(size, k + 1)
  }

  function LargeAlloc(h: Heap, size: nat): (Heap, Option<Obj>) {
    match Alloc(h.buddy, OrderFor(size, 0))
    case Exhausted => (h, None)
    case Allocated(b, p) => (h.(buddy := b, live := h.live[Large(p) := size]), Some(Large(p)))
  }

  function Kmalloc(h: Heap, size: nat): (Heap, Option<Obj>)
    requires Core(h)
  {
    if size == 0 then (h, None)
    else if size > MAX_SMALL then LargeAlloc(h, size)
    else
      var c := ClassFor(size, 0);
      if c < NUM_CACHES then SlabAlloc(h, c, size) else (h, None)
  }

  /** A slab with no free slot returns to the front of its cache's partial list. */
  function Reopen(h: Heap, p: nat): Heap
    requires p in h.slabs && h.slabs[p].cls < |h.partial| == |h.full|
  {
    var c := h.slabs[p].cls;
    if h.slabs[p].chain == [] then
      h.(partial := h.partial[c := [p] + h.partial[c]], full := h.full[c := Remove(h.full[c], p)])
    else h
  }

  /** Give a slot back to its slab; a slab with every slot free returns its page to the buddy allocator. */
  function Return(h: Heap, o: Obj): Heap
    requires o.Slot? && o.page in h.slabs && h.slabs[o.page].cls < |h.partial|
    requires o.page in h.buddy.used && h.buddy.used[o.page] <= MAX_ORDERS && |h.buddy.lists| == MAX_ORDERS + 1
  {
    var Slot(p, j) := o;
    var s := h.slabs[p].(chain := [j] + h.slabs[p].chain);
    if |s.chain| == Capacity(s.cls) then
      Heap(Free(h.buddy, p), h.slabs - {p}, h.partial[s.cls := Remove(h.partial[s.cls], p)], h.full, h.live - {o})
    else
      h.(slabs := h.slabs[p := s], live := h.live - {o})
  }

  function SlabFree(h: Heap, o: Obj): Heap
    requires Core(h) && o in h.live && o.Slot?
  {
    Return(Reopen(h, o.page), o)
  }

  function Kfree(h: Heap, o: Obj): Heap
    requires Core(h) && o in h.live
  {
    if o.page in h.slabs then SlabFree(h, o)
    else LargeFree(h, o)
  }

  function LargeFree(h: Heap, o: Obj): Heap
    requires Core(h) && o in h.live && o.Large?
  {
    FreeKeepsInv(h.buddy, o.page);
    h.(buddy := Free(h.buddy, o.page), live := h.live - {o})
  }

  // ---------- arithmetic of size classes ----------

  lemma ClassSizes(c: nat)
    requires c < NUM_CACHES
    ensures 16 <= ObjSize(c) <= MAX_SMALL && 1 <= Capacity(c) && ObjSize(7) == MAX_SMALL
  {
    Pow2Values();
    assert Pow2(7) == 128;
    Pow2Monotone(0, c);
    Pow2Monotone(c, 7);
    QuotientPositive(PAGE_SIZE - HEADER, ObjSize(c));
  }

  lemma QuotientPositive(x: nat, n: nat)
    requires 1 <= n <= x
    ensures 1 <= x / n
  {
    DivModPlusOne(x - n, n);
  }

  lemma SlotFits(c: nat, j: nat)
    requires c < NUM_CACHES && j < Capacity(c)
    ensures HEADER <= SlotOffset(c, j) && SlotOffset(c, j) + ObjSize(c) <= PAGE_SIZE
  {
    var n := ObjSize(c);
    assert n * Capacity(c) <= PAGE_SIZE - HEADER;
    Gap(n, j, Capacity(c));
  }

  lemma SlotsApart(c: nat, i: nat, j: nat)
    requires i != j
    ensures SlotOffset(c, i) + ObjSize(c) <= SlotOffset(c, j) || SlotOffset(c, j) + ObjSize(c) <= SlotOffset(c, i)
  {
    if i < j { Gap(ObjSize(c), i, j); } else { Gap(ObjSize(c), j, i); }
  }

  // ---------- the invariant is kept ----------

  lemma InitHeapInv()
    ensures HeapInv(InitHeap())
  {
    InitInv();
  }

  lemma SeqOfRange(n: nat)
    ensures var l := seq(n, i => i);
            Distinct(l) && forall j: nat :: j in l <==> j < n
  {
    var l := seq(n, i => i);
    forall j: nat | j < n
      ensures j in l
    {
      assert l[j] == j;
    }
  }

  lemma GrowKeepsCore(h: Heap, c: nat)
    requires Core(h) && c < NUM_CACHES
    ensures Grow(h, c).Some? ==> Core(Grow(h, c).value) && CanPop(Grow(h, c).value, c)
  {
    if h.partial[c] != [] {
      assert h.partial[c][0] in h.partial[c];
    } else if Alloc(h.buddy, 0).Allocated? {
      var Allocated(b, p) := Alloc(h.buddy, 0);
      AllocKeepsInv(h.buddy, 0);
      var g := Grow(h, c).value;
      assert p !in h.slabs && b.used == h.buddy.used[p := 0];
      SeqOfRange(Capacity(c));
      ClassSizes(c);
      NewSlabParts(h, p, c);
    }
  }

  lemma NewSlabParts(h: Heap, p: nat, c: nat)
    requires Core(h) && c < NUM_CACHES && p !in h.buddy.used && h.partial[c] == [] && 1 <= Capacity(c)
    ensures SlabsOK(h.buddy.used[p := 0], h.slabs[p := FreshSlab(c)])
    ensures ListsOK(h.slabs[p := FreshSlab(c)], h.partial[c := [p]], h.full)
    ensures LiveOK(h.buddy.used[p := 0], h.slabs[p := FreshSlab(c)], h.live)
  {
    hide BuddyModel.Inv, LiveOK;
    SeqOfRange(Capacity(c));
    var used, slabs := h.buddy.used[p := 0], h.slabs[p := FreshSlab(c)];
    NewSlabObjects(h, p, c);
    hide IsObject, Granted;
    LiveSame(h.buddy.used, h.slabs, used, slabs, h.live);
  }

  /** A slab with every slot free holds no object. */
  lemma NewSlabObjects(h: Heap, p: nat, c: nat)
    requires Core(h) && c < NUM_CACHES && p !in h.buddy.used && 1 <= Capacity(c)
    ensures var used, slabs := h.buddy.used[p := 0], h.slabs[p := FreshSlab(c)];
            forall o :: (IsObject(used, slabs, o) <==> IsObject(h.buddy.used, h.slabs, o))
                        && (IsObject(used, slabs, o) ==> Granted(used, slabs, o) == Granted(h.buddy.used, h.slabs, o))
  {
    hide BuddyModel.Inv, LiveOK, ListsOK;
    SeqOfRange(Capacity(c));
  }

  lemma LiveSame(used: map<nat, nat>, slabs: map<nat, Slab>, used': map<nat, nat>, slabs': map<nat, Slab>, live: map<Obj, nat>)
    requires LiveOK(used, slabs, live)
    requires forall o :: IsObject(used', slabs', o) <==> IsObject(used, slabs, o)
    requires forall o :: IsObject(used', slabs', o) ==> Granted(used', slabs', o) == Granted(used, slabs, o)
    ensures LiveOK(used', slabs', live)
  {
    hide IsObject, Granted;
  }

  /** Every object of the second state is one of the first with as many bytes, or is `o`. */
  ghost predicate Gains(used: map<nat, nat>, slabs: map<nat, Slab>, used': map<nat, nat>, slabs': map<nat, Slab>, o: Obj) {
    && IsObject(used', slabs', o) && !IsObject(used, slabs, o)
    && forall x :: x != o ==>
      && (IsObject(used, slabs, x) <==> IsObject(used', slabs', x))
      && (IsObject(used, slabs, x) ==> Granted(used, slabs, x) == Granted(used', slabs', x))
  }

  lemma LiveGains(used: map<nat, nat>, slabs: map<nat, Slab>, used': map<nat, nat>, slabs': map<nat, Slab>,
                  live: map<Obj, nat>, o: Obj, size: nat)
    requires LiveOK(used, slabs, live) && Gains(used, slabs, used', slabs', o)
    requires 0 < size <= Granted(used', slabs', o)
    ensures LiveOK(used', slabs', live[o := size]) && o !in live
  {
    hide IsObject, Granted;
  }

  lemma LiveLoses(used: map<nat, nat>, slabs: map<nat, Slab>, used': map<nat, nat>, slabs': map<nat, Slab>,
                  live: map<Obj, nat>, o: Obj)
    requires LiveOK(used, slabs, live) && Gains(used', slabs', used, slabs, o)
    ensures LiveOK(used', slabs', live - {o})
  {
    hide IsObject, Granted;
  }

  lemma PopKeepsCore(h: Heap, c: nat, size: nat)
    requires Core(h) && c < NUM_CACHES && CanPop(h, c) && 0 < size <= ObjSize(c)
    ensures var (r, o) := Pop(h, c, size);
            Core(r) && o !in h.live && r.live == h.live[o := size]
    ensures var p := h.partial[c][0];
            |Pop(h, c, size).0.slabs[p].chain| < Capacity(c) && forall q :: q in h.slabs && q != p ==> Pop(h, c, size).0.slabs[q] == h.slabs[q]
  {
    hide BuddyModel.Inv;
    var p := h.partial[c][0];
    assert p in h.partial[c];
    var s := h.slabs[p];
    assert s.chain == [s.chain[0]] + s.chain[1..] && s.chain[0] in s.chain;
    HeadNotInTail(s.chain);
    var t := s.(chain := s.chain[1..]);
    var (r, o) := Pop(h, c, size);
    assert Distinct(t.chain) && forall j :: j in s.chain <==> j == s.chain[0] || j in t.chain;
    DistinctBound(s.chain, Capacity(c));
    PopLists(h, c, size);
    PopLive(h, c, size);
    hide LiveOK, IsObject, ListsOK;
  }

  lemma PopLive(h: Heap, c: nat, size: nat)
    requires Core(h) && c < NUM_CACHES && CanPop(h, c) && 0 < size <= ObjSize(c)
    ensures var (r, o) := Pop(h, c, size); LiveOK(r.buddy.used, r.slabs, r.live) && o !in h.live
  {
    hide BuddyModel.Inv, LiveOK, ListsOK;
    PopGains(h, c, size);
    var (r, o) := Pop(h, c, size);
    LiveGains(h.buddy.used, h.slabs, r.buddy.used, r.slabs, h.live, o, size);
  }

  lemma PopGains(h: Heap, c: nat, size: nat)
    requires Core(h) && c < NUM_CACHES && CanPop(h, c) && 0 < size <= ObjSize(c)
    ensures var (r, o) := Pop(h, c, size);
            && Gains(h.buddy.used, h.slabs, r.buddy.used, r.slabs, o) && size <= Granted(r.buddy.used, r.slabs, o)
            && r.live == h.live[o := size]
  {
    hide BuddyModel.Inv, LiveOK;
    var p := h.partial[c][0];
    assert p in h.partial[c];
    var s := h.slabs[p];
    var (r, o) := Pop(h, c, size);
    assert s.chain == [s.chain[0]] + s.chain[1..] && s.chain[0] in s.chain;
    HeadNotInTail(s.chain);
    assert r.slabs == h.slabs[p := s.(chain := s.chain[1..])];
  }

  lemma PopLists(h: Heap, c: nat, size: nat)
    requires Core(h) && c < NUM_CACHES && CanPop(h, c)
    ensures var r := Pop(h, c, size).0; ListsOK(r.slabs, r.partial, r.full)
  {
    hide BuddyModel.Inv, LiveOK;
    var l := h.partial[c];
    var p := l[0];
    assert p in l && l == [p] + l[1..];
    HeadNotInTail(l);
    var r := Pop(h, c, size).0;
    var s := h.slabs[p];
    if |s.chain| == 1 {
      assert p !in h.full[c];
      assert forall q :: q in r.full[c] <==> q == p || q in h.full[c];
      assert forall q :: q in l <==> q == p || q in r.partial[c];
    }
  }

  /** A sequence without repetitions of numbers below n is no longer than n, and holds them all when it is as long. */
  lemma DistinctBound(l: seq<nat>, n: nat)
    requires Distinct(l) && forall j :: j in l ==> j < n
    ensures |l| <= n
    ensures |l| == n ==> forall j: nat :: j < n ==> j in l
    ensures |l| < n ==> exists j: int :: 0 <= j < n && j !in l
  {
    hide BuddyTiling.Range, ElementSet, Distinct;
    var s := ElementSet(l);
    RangeElements(n);
    SubsetSize(s, BuddyTiling.Range(n));
    if |l| < n {
      var j := Difference(s, BuddyTiling.Range(n));
      assert 0 <= j < n && j !in l;
    }
  }

  lemma Difference<T>(a: set<T>, b: set<T>) returns (x: T)
    requires a <= b && a != b
    ensures x in b && x !in a
  {
    x :| x in b && x !in a;
  }

  lemma {:induction false} SubsetSize<T>(a: set<T>, b: set<T>)
    requires a <= b
    ensures |a| <= |b| && (|a| == |b| ==> a == b)
  {
    if a != {} {
      var x :| x in a;
      SubsetSize(a - {x}, b - {x});
    }
  }

  ghost function {:induction false} ElementSet(l: seq<nat>): (s: set<int>)
    ensures forall j: int :: j in s <==> j in l
    ensures Distinct(l) ==> |s| == |l|
  {
    if l == [] then {}
    else
      var t := ElementSet(l[1..]);
      assert l == [l[0]] + l[1..];
      assert Distinct(l) ==> Distinct(l[1..]) && l[0] !in l[1..];
      t + {l[0]}
  }

  lemma SlabAllocKeepsInv(h: Heap, c: nat, size: nat)
    requires HeapInv(h) && c < NUM_CACHES && 0 < size <= ObjSize(c)
    ensures HeapInv(SlabAlloc(h, c, size).0)
    ensures match SlabAlloc(h, c, size).1
            case None => SlabAlloc(h, c, size).0 == h
            case Some(o) => o !in h.live && SlabAlloc(h, c, size).0.live == h.live[o := size]
  {
    hide Core, Pop, Grow, CanPop, Retained, RetainedBut;
    CacheCount(h);
    GrowKeepsCore(h, c);
    if Grow(h, c).Some? {
      GrowRetains(h, c);
      PopKeepsCore(Grow(h, c).value, c, size);
      PopRetains(Grow(h, c).value, c, size);
    }
  }

  /** Every slab but the first partial one of cache c has a live object. */
  ghost predicate RetainedBut(h: Heap, c: nat) {
    CanPop(h, c) && forall p :: p in h.slabs && p != h.partial[c][0] ==> |h.slabs[p].chain| < Capacity(h.slabs[p].cls)
  }

  lemma CacheCount(h: Heap)
    requires Core(h)
    ensures |h.partial| == NUM_CACHES
  {
  }

  lemma GrowRetains(h: Heap, c: nat)
    requires Core(h) && Retained(h.slabs) && c < NUM_CACHES && Grow(h, c).Some?
    ensures RetainedBut(Grow(h, c).value, c) && Grow(h, c).value.live == h.live
  {
    GrowKeepsCore(h, c);
    hide Core;
  }

  lemma PopRetains(h: Heap, c: nat, size: nat)
    requires Core(h) && RetainedBut(h, c) && c < NUM_CACHES && 0 < size <= ObjSize(c)
    ensures Retained(Pop(h, c, size).0.slabs)
  {
    PopKeepsCore(h, c, size);
    hide Core;
  }

  lemma SlabAllocClass(h: Heap, c: nat, size: nat)
    requires HeapInv(h) && c < NUM_CACHES
    ensures Core(h)
    ensures match SlabAlloc(h, c, size).1
            case None => true
            case Some(o) => o.Slot? && o.page in SlabAlloc(h, c, size).0.slabs && SlabAlloc(h, c, size).0.slabs[o.page].cls == c
  {
    GrowKeepsCore(h, c);
    if Grow(h, c).Some? {
      var g := Grow(h, c).value;
      assert g.partial[c][0] in g.partial[c];
    }
  }

  lemma LargeAllocParts(used: map<nat, nat>, slabs: map<nat, Slab>, live: map<Obj, nat>, p: nat, k: nat, size: nat)
    requires SlabsOK(used, slabs) && LiveOK(used, slabs, live) && p !in used && 0 < size <= Pow2(k) * PAGE_SIZE
    ensures SlabsOK(used[p := k], slabs) && LiveOK(used[p := k], slabs, live[Large(p) := size]) && Large(p) !in live
  {
    hide LiveOK, ChainOK;
    assert Gains(used, slabs, used[p := k], slabs, Large(p));
    LiveGains(used, slabs, used[p := k], slabs, live, Large(p), size);
  }

  lemma LargeAllocKeepsInv(h: Heap, size: nat)
    requires HeapInv(h) && 0 < size
    ensures HeapInv(LargeAlloc(h, size).0)
    ensures match LargeAlloc(h, size).1
            case None => LargeAlloc(h, size).0 == h
            case Some(o) => o !in h.live && LargeAlloc(h, size).0.live == h.live[o := size]
  {
    hide BuddyModel.Inv, ListsOK, LiveOK, SlabsOK, Alloc, Retained, Unallocated;
    var order := OrderFor(size, 0);
    AllocKeepsInv(h.buddy, order);
    if Alloc(h.buddy, order).Allocated? {
      LargeAllocParts(h.buddy.used, h.slabs, h.live, Alloc(h.buddy, order).page, order, size);
    }
  }

  /** kmalloc keeps the invariant; it adds one live object of the requested size or changes nothing. */
  lemma KmallocKeepsInv(h: Heap, size: nat)
    requires HeapInv(h)
    ensures HeapInv(Kmalloc(h, size).0)
    ensures match Kmalloc(h, size).1
            case None => Kmalloc(h, size).0 == h
            case Some(o) => o !in h.live && Kmalloc(h, size).0.live == h.live[o := size]
  {
    hide HeapInv, SlabAlloc, LargeAlloc;
    ClassSizes(0);
    if size > MAX_SMALL {
      LargeAllocKeepsInv(h, size);
    } else if size > 0 && ClassFor(size, 0) < NUM_CACHES {
      SlabAllocKeepsInv(h, ClassFor(size, 0), size);
    }
  }

  lemma ReopenLists(h: Heap, p: nat, chain: seq<nat>)
    requires Core(h) && p in h.slabs && chain != []
    ensures var r := Reopen(h, p); ListsOK(h.slabs[p := h.slabs[p].(chain := chain)], r.partial, r.full)
    ensures var r := Reopen(h, p); r.slabs == h.slabs && r.buddy == h.buddy && r.live == h.live
  {
    hide BuddyModel.Inv, LiveOK;
    var c := h.slabs[p].cls;
    var r := Reopen(h, p);
    if h.slabs[p].chain == [] {
      RemoveElements(h.full[c], p);
      assert forall q :: q in r.partial[c] <==> q == p || q in h.partial[c];
    }
  }

  lemma DropLists(slabs: map<nat, Slab>, partial: seq<seq<nat>>, full: seq<seq<nat>>, p: nat)
    requires ListsOK(slabs, partial, full) && p in slabs && slabs[p].cls < NUM_CACHES && slabs[p].chain != []
    ensures var c := slabs[p].cls; ListsOK(slabs - {p}, partial[c := Remove(partial[c], p)], full)
  {
    RemoveElements(partial[slabs[p].cls], p);
  }

  lemma LiveIsObject(h: Heap, o: Obj)
    requires Core(h)
    ensures o in h.live <==> IsObject(h.buddy.used, h.slabs, o)
  {
  }

  lemma ReturnKeptParts(used: map<nat, nat>, slabs: map<nat, Slab>, live: map<Obj, nat>, o: Obj, s: Slab)
    requires SlabsOK(used, slabs) && LiveOK(used, slabs, live) && o in live && o.Slot?
    requires IsObject(used, slabs, o) && s == slabs[o.page].(chain := [o.index] + slabs[o.page].chain)
    ensures SlabsOK(used, slabs[o.page := s]) && LiveOK(used, slabs[o.page := s], live - {o})
  {
    hide LiveOK;
    assert forall i :: i in s.chain <==> i == o.index || i in slabs[o.page].chain;
    assert Gains(used, slabs[o.page := s], used, slabs, o);
    LiveLoses(used, slabs, used, slabs[o.page := s], live, o);
  }

  /** Returning a slot whose slab keeps another live object. */
  lemma ReturnKept(h: Heap, o: Obj)
    requires HeapInv(h) && o in h.live && o.Slot? && o.page in h.slabs && |h.slabs[o.page].chain| + 1 < Capacity(h.slabs[o.page].cls)
    ensures HeapInv(SlabFree(h, o)) && SlabFree(h, o).live == h.live - {o}
  {
    hide BuddyModel.Inv, ListsOK, LiveOK, SlabsOK, Reopen, IsObject;
    LiveIsObject(h, o);
    var s := h.slabs[o.page].(chain := [o.index] + h.slabs[o.page].chain);
    ReopenLists(h, o.page, s.chain);
    ReturnKeptParts(h.buddy.used, h.slabs, h.live, o, s);
  }

  lemma ReturnLastParts(used: map<nat, nat>, slabs: map<nat, Slab>, live: map<Obj, nat>, o: Obj)
    requires SlabsOK(used, slabs) && LiveOK(used, slabs, live) && o in live && o.Slot?
    requires IsObject(used, slabs, o) && |slabs[o.page].chain| + 1 == Capacity(slabs[o.page].cls)
    ensures SlabsOK(used - {o.page}, slabs - {o.page}) && LiveOK(used - {o.page}, slabs - {o.page}, live - {o})
  {
    hide LiveOK;
    var s := slabs[o.page];
    var chain := [o.index] + s.chain;
    assert forall i :: i in chain <==> i == o.index || i in s.chain;
    DistinctBound(chain, Capacity(s.cls));
    assert Gains(used - {o.page}, slabs - {o.page}, used, slabs, o);
    LiveLoses(used, slabs, used - {o.page}, slabs - {o.page}, live, o);
  }

  /** Returning the last live slot of a slab. */
  lemma ReturnLast(h: Heap, o: Obj)
    requires HeapInv(h) && o in h.live && o.Slot? && o.page in h.slabs && |h.slabs[o.page].chain| + 1 == Capacity(h.slabs[o.page].cls)
    ensures HeapInv(SlabFree(h, o)) && SlabFree(h, o).live == h.live - {o}
  {
    LiveIsObject(h, o);
    var p := o.page;
    var s := h.slabs[p].(chain := [o.index] + h.slabs[p].chain);
    ReopenLists(h, p, s.chain);
    DropLists(h.slabs[p := s], Reopen(h, p).partial, Reopen(h, p).full, p);
    assert h.slabs[p := s] - {p} == h.slabs - {p};
    FreeKeepsInv(h.buddy, p);
    ReturnLastParts(h.buddy.used, h.slabs, h.live, o);
    hide BuddyModel.Inv, ListsOK, LiveOK, SlabsOK, Reopen, IsObject;
  }

  lemma LargeFreeParts(used: map<nat, nat>, slabs: map<nat, Slab>, live: map<Obj, nat>, p: nat)
    requires SlabsOK(used, slabs) && LiveOK(used, slabs, live) && p in used && p !in slabs
    ensures SlabsOK(used - {p}, slabs) && LiveOK(used - {p}, slabs, live - {Large(p)})
  {
    hide LiveOK, ChainOK;
    assert Gains(used - {p}, slabs, used, slabs, Large(p));
    LiveLoses(used, slabs, used - {p}, slabs, live, Large(p));
  }

  lemma LargeFreeKeepsInv(h: Heap, o: Obj)
    requires HeapInv(h) && o in h.live && o.Large?
    ensures HeapInv(LargeFree(h, o)) && LargeFree(h, o).live == h.live - {o}
  {
    hide BuddyModel.Inv, ListsOK, LiveOK, SlabsOK;
    LiveIsObject(h, o);
    FreeKeepsInv(h.buddy, o.page);
    LargeFreeParts(h.buddy.used, h.slabs, h.live, o.page);
  }

  /** kfree keeps the invariant and ends the life of exactly the object it is given. */
  lemma KfreeKeepsInv(h: Heap, o: Obj)
    requires HeapInv(h) && o in h.live
    ensures HeapInv(Kfree(h, o)) && Kfree(h, o).live == h.live - {o}
  {
    assert IsObject(h.buddy.used, h.slabs, o);
    if o.page in h.slabs {
      ChainRoom(h, o);
      if |h.slabs[o.page].chain| + 1 == Capacity(h.slabs[o.page].cls) {
        ReturnLast(h, o);
      } else {
        ReturnKept(h, o);
      }
    } else {
      LargeFreeKeepsInv(h, o);
    }
  }

  lemma ChainRoom(h: Heap, o: Obj)
    requires HeapInv(h) && o in h.live && o.Slot?
    ensures o.page in h.slabs && |h.slabs[o.page].chain| + 1 <= Capacity(h.slabs[o.page].cls)
  {
    assert IsObject(h.buddy.used, h.slabs, o);
  }
}
