/** The heap as the kernel runs it: words in memory, page metadata, list heads, and the loops that change them. */
module KernelHeap {
  import opened Basics
  import opened Blocks
  import opened BuddyTiling
  import opened BuddyModel
  import opened HeapModel
  import opened HeapMemory
  import opened HeapLayout

  class Heap16M {
    var mem: Memory
    const freeAreas: array<Word>       // free_areas: one list head per order
    const metadata: array<PageMeta>    // metadata: one entry per page
    const slabHeads: array<Word>       // slabs_partial of cache c at c, slabs_full at NUM_CACHES + c

    ghost var h: Heap                  // the heap value this state lays out
    ghost var slabLists: seq<seq<nat>> // contents of the lists at slabHeads

    ghost predicate Shape()
      reads this
    {
      && freeAreas.Length == MAX_ORDERS + 1 && metadata.Length == TOTAL_PAGES && slabHeads.Length == 2 * NUM_CACHES
      && slabHeads != freeAreas
    }

    ghost predicate BuddyOK()
      reads this, freeAreas, metadata
    {
      Shape() && BuddyMem(mem, freeAreas[..], metadata[..], h)
    }

    ghost predicate Valid()
      reads this, freeAreas, metadata, slabHeads
    {
      && BuddyOK()
      && HeapInv(h)
      && slabLists == h.partial + h.full
      && SlabMem(mem, slabHeads[..], h)
    }

    /** init_buddy and init_slab, over memory with any contents. */
    constructor (m: Memory)
      ensures Valid() && h == InitHeap() && fresh(freeAreas) && fresh(metadata) && fresh(slabHeads)
    {
      hide BuddyMem, SlabMem, HeapInv;
      freeAreas := new Word[MAX_ORDERS + 1];
      metadata := new PageMeta[TOTAL_PAGES];
      slabHeads := new Word[2 * NUM_CACHES];
      mem := m;
      h := EmptyHeap();
      slabLists := InitHeap().partial + InitHeap().full;
      new;
      for i := 0 to MAX_ORDERS + 1
        modifies freeAreas
        invariant forall j :: 0 <= j < i ==> freeAreas[j] == Null
      {
        freeAreas[i] := Null;
      }
      for i := 0 to TOTAL_PAGES
        modifies metadata
        invariant forall j :: 0 <= j < i ==> metadata[j] == PageMeta(0, false, false)
      {
        metadata[i] := PageMeta(0, false, false);
      }
      for i := 0 to 2 * NUM_CACHES
        modifies slabHeads
        invariant forall j :: 0 <= j < i ==> slabHeads[j] == Null
      {
        slabHeads[i] := Null;
      }
      EmptyLayout(mem, freeAreas[..], metadata[..], slabHeads[..]);
      BuddyListAdd(0, MAX_ORDERS);
      InitLayout(mem, slabHeads[..]);
    }

    // ---------- free-block lists ----------

    method BuddyListAdd(p: nat, k: nat)
      requires BuddyOK() && k <= MAX_ORDERS && p < TOTAL_PAGES
      requires !metadata[p].isFree && p !in h.buddy.used && p !in h.slabs
      modifies this`mem, this`h, freeAreas, metadata
      ensures BuddyOK()
      ensures h == old(h).(buddy := old(h).buddy.(lists := Push(old(h).buddy.lists, p, k)))
      ensures SameOn(old(mem), mem, h.buddy.used)
      ensures unchanged(slabHeads)
    {
      AddLayout(mem, freeAreas[..], metadata[..], h, p, k);
      hide BuddyMem, SameOn, PushMem;
      ghost var m' := PushMem(mem, freeAreas[k], p, BLOCK_PREV, BLOCK_NEXT);
      mem := mem[Loc(p, BLOCK_PREV) := Null];
      mem := mem[Loc(p, BLOCK_NEXT) := freeAreas[k]];
      if freeAreas[k].Ptr? {
        mem := mem[Loc(freeAreas[k].loc.page, BLOCK_PREV) := Node(p)];
      }
      assert mem == m' by { PushMemIs(old(mem), freeAreas[k], p, BLOCK_PREV, BLOCK_NEXT); }
      freeAreas[k] := Node(p);
      metadata[p] := PageMeta(k, true, false);
      assert freeAreas[..] == old(freeAreas[..])[k := Node(p)];
      assert metadata[..] == old(metadata[..])[p := PageMeta(k, true, false)];
      h := h.(buddy := h.buddy.(lists := Push(h.buddy.lists, p, k)));
    }

    lemma PushMemIs(m: Memory, head: Word, p: nat, po: int, no: int)
      ensures PushMem(m, head, p, po, no) ==
        if head.Ptr? then m[Loc(p, po) := Null][Loc(p, no) := head][Loc(head.loc.page, po) := Node(p)]
        else m[Loc(p, po) := Null][Loc(p, no) := head]
    {
    }

    method BuddyListRemove(p: nat, k: nat)
      requires BuddyOK() && k <= MAX_ORDERS && p in h.buddy.lists[k]
      modifies this`mem, this`h, freeAreas, metadata
      ensures BuddyOK()
      ensures h == old(h).(buddy := old(h).buddy.(lists := Unlink(old(h).buddy.lists, p, k)))
      ensures SameOn(old(mem), mem, h.buddy.used)
      ensures unchanged(slabHeads)
    {
      RemoveLayout(mem, freeAreas[..], metadata[..], h, p, k);
      hide BuddyMem, SameOn;
      ghost var m' := UnlinkMem(mem, p, BLOCK_PREV, BLOCK_NEXT);
      ghost var head' := UnlinkHead(mem, freeAreas[k], p, BLOCK_PREV, BLOCK_NEXT);
      var prev, next := Load(mem, Loc(p, BLOCK_PREV)), Load(mem, Loc(p, BLOCK_NEXT));
      hide Load;
      if prev.Ptr? {
        mem := mem[Loc(prev.loc.page, BLOCK_NEXT) := next];
      } else {
        freeAreas[k] := next;
      }
      if next.Ptr? {
        mem := mem[Loc(next.loc.page, BLOCK_PREV) := prev];
      }
      metadata[p] := metadata[p].(isFree := false);
      assert mem == m';
      assert freeAreas[..] == old(freeAreas[..])[k := head'];
      assert metadata[..] == old(metadata[..])[p := old(metadata[p]).(isFree := false)];
      h := h.(buddy := h.buddy.(lists := Unlink(h.buddy.lists, p, k)));
    }

    // ---------- buddy_alloc ----------

    method BuddyAlloc(order: nat) returns (r: Word)
      requires BuddyOK() && BuddyModel.Inv(h.buddy)
      modifies this`mem, this`h, freeAreas, metadata
      ensures BuddyOK()
      ensures match Alloc(old(h).buddy, order)
              case Exhausted => r == Null && h == old(h) && mem == old(mem)
              case Allocated(b, p) => r == Node(p) && h == old(h).(buddy := b)
      ensures SameOn(old(mem), mem, old(h).buddy.used)
    {
      hide BuddyMem, SameOn, BuddyModel.Inv, SplitDown;
      HeadOf(mem, freeAreas[..], metadata[..], h, 0);
      var i := order;
      while i <= MAX_ORDERS
        invariant order <= i && h == old(h) && mem == old(mem) && BuddyOK()
        invariant FirstFit(h.buddy.lists, order) == FirstFit(h.buddy.lists, i)
      {
        HeadOf(mem, freeAreas[..], metadata[..], h, i);
        if freeAreas[i] != Null {
          var p := TakeBlock(i, order);
          return Node(p);
        }
        i := i + 1;
      }
      SameOnSelf(mem, h.buddy.used);
      return Null;
    }

    /** Unlink the first free block of order `start` and halve it down to `order`. */
    method TakeBlock(start: nat, order: nat) returns (p: nat)
      requires BuddyOK() && BuddyModel.Inv(h.buddy)
      requires order <= start <= MAX_ORDERS && FirstFit(h.buddy.lists, order) == start && freeAreas[start] != Null
      modifies this`mem, this`h, freeAreas, metadata
      ensures BuddyOK()
      ensures Alloc(old(h).buddy, order) == Allocated(h.buddy, p)
      ensures h == old(h).(buddy := h.buddy)
      ensures SameOn(old(mem), mem, old(h).buddy.used)
    {
      hide BuddyMem, InHand, SameOn, BuddyModel.Inv, SplitDown, Alloc, FirstFit;
      ghost var s := h.buddy;
      HeadOf(mem, freeAreas[..], metadata[..], h, start);
      p := freeAreas[start].loc.page;
      BeginSplit(s, order, start);
      BuddyListRemove(p, start);
      ghost var lists1 := h.buddy.lists;
      var i := start;
      while i > order
        invariant order <= i <= start && BuddyOK()
        invariant h == old(h).(buddy := h.buddy) && h.buddy.used == s.used && |h.buddy.lists| == |lists1| == MAX_ORDERS + 1
        invariant InHand(h.buddy, Block(p, i))
        invariant SplitDown(h.buddy.lists, p, i, order) == SplitDown(lists1, p, start, order)
        invariant SameOn(old(mem), mem, s.used)
      {
        i := i - 1;
        SplitDownStep(h.buddy.lists, p, i, order);
        ghost var m := mem;
        LinkUpperHalf(p, i);
        SameOnTransitive(old(mem), m, mem, s.used);
      }
      SplitDownBase(h.buddy.lists, p, order);
      RecordAllocation(p, order);
    }

    /** One turn of the halving loop: link the half that the exclusive-or of addresses gives. */
    method LinkUpperHalf(p: nat, i: nat)
      requires BuddyOK() && i < MAX_ORDERS && InHand(h.buddy, Block(p, i + 1))
      modifies this`mem, this`h, freeAreas, metadata
      ensures BuddyOK() && InHand(h.buddy, Block(p, i))
      ensures h == old(h).(buddy := old(h).buddy.(lists := Push(old(h).buddy.lists, p + Pow2(i), i)))
      ensures SameOn(old(mem), mem, h.buddy.used)
    {
      hide BuddyMem, InHand, Xor, Pow2, SameOn;
      UpperListable(mem, freeAreas[..], metadata[..], h, p, i);
      var q := (Xor(PageAddress(p), Pow2(i) * PAGE_SIZE) - HEAP_START) / PAGE_SIZE;
      BuddyListAdd(q, i);
    }

    method RecordAllocation(p: nat, order: nat)
      requires BuddyOK() && order <= MAX_ORDERS && InHand(h.buddy, Block(p, order))
      modifies this`h, metadata
      ensures BuddyOK()
      ensures h == old(h).(buddy := old(h).buddy.(used := old(h).buddy.used[p := order]))
    {
      hide BuddyMem, InHand;
      EndSplit(mem, freeAreas[..], metadata[..], h, p, order);
      metadata[p] := PageMeta(order, false, false);
      assert metadata[..] == old(metadata[..])[p := PageMeta(order, false, false)];
      h := h.(buddy := h.buddy.(used := h.buddy.used[p := order]));
    }

    // ---------- buddy_free ----------

    method BuddyFree(p: nat)
      requires BuddyOK() && BuddyModel.Inv(h.buddy) && p in h.buddy.used && p !in h.slabs
      modifies this`mem, this`h, freeAreas, metadata
      ensures BuddyOK()
      ensures old(h).buddy.used[p] <= MAX_ORDERS && |old(h).buddy.lists| == MAX_ORDERS + 1
      ensures h == old(h).(buddy := Free(old(h).buddy, p))
      ensures SameOn(old(mem), mem, h.buddy.used)
    {
      hide BuddyMem, InHand, SameOn, BuddyModel.Inv, Release, Free;
      FreeIs(h.buddy, p);
      BeginFree(mem, freeAreas[..], metadata[..], h, p);
      ghost var s := h.buddy;
      ghost var b0 := Block(p, s.used[p]);
      h := h.(buddy := s.(used := s.used - {p}));
      var addr: nat, i: nat := p, metadata[p].order;
      SameOnSelf(mem, h.buddy.used);
      while i < MAX_ORDERS
        invariant i <= MAX_ORDERS && BuddyOK() && InHand(h.buddy, Block(addr, i))
        invariant h == old(h).(buddy := h.buddy) && h.buddy.used == s.used - {p} && |h.buddy.lists| == MAX_ORDERS + 1
        invariant Release(h.buddy.lists, Block(addr, i)) == Release(s.lists, b0)
        invariant SameOn(old(mem), mem, h.buddy.used)
      {
        ghost var m := mem;
        var merged, parent := MergeWithBuddy(addr, i);
        SameOnTransitive(old(mem), m, mem, h.buddy.used);
        if !merged {
          break;
        }
        addr, i := parent, i + 1;
      }
      HandListable(mem, freeAreas[..], metadata[..], h, Block(addr, i));
      ReleaseEnds(h.buddy.lists, Block(addr, i));
      ghost var m := mem;
      BuddyListAdd(addr, i);
      SameOnTransitive(old(mem), m, mem, h.buddy.used);
    }

    lemma FreeIs(s: State, p: nat)
      requires BuddyModel.Inv(s) && p in s.used
      ensures s.used[p] <= MAX_ORDERS && |s.lists| == MAX_ORDERS + 1
      ensures Free(s, p) == State(Release(s.lists, Block(p, s.used[p])), s.used - {p})
    {
      hide BuddyModel.Inv, Release;
      FreeKeepsInv(s, p);
      InvLists(s);
    }

    lemma InvLists(s: State)
      requires BuddyModel.Inv(s)
      ensures |s.lists| == MAX_ORDERS + 1
    {
    }

    /** One turn of the merging loop: if the buddy is free at this order, unlink it and take the lower of the two addresses. */
    method MergeWithBuddy(addr: nat, i: nat) returns (merged: bool, parent: nat)
      requires BuddyOK() && i < MAX_ORDERS && InHand(h.buddy, Block(addr, i))
      modifies this`mem, this`h, freeAreas, metadata
      ensures BuddyOK() && h == old(h).(buddy := h.buddy) && h.buddy.used == old(h).buddy.used
      ensures merged <==> Buddy(Block(addr, i)).page in old(h).buddy.lists[i]
      ensures |h.buddy.lists| == MAX_ORDERS + 1
      ensures merged ==>
                && InHand(h.buddy, Block(parent, i + 1))
                && Release(h.buddy.lists, Block(parent, i + 1)) == Release(old(h).buddy.lists, Block(addr, i))
      ensures !merged ==> h == old(h) && mem == old(mem)
      ensures SameOn(old(mem), mem, h.buddy.used)
    {
      hide BuddyMem, InHand, Release, Xor, Pow2, SameOn, Buddy, Remove;
      ghost var b := Block(addr, i);
      SameOnSelf(mem, h.buddy.used);
      BuddyByMeta(mem, freeAreas[..], metadata[..], h, b);
      var q := (Xor(PageAddress(addr), Pow2(i) * PAGE_SIZE) - HEAP_START) / PAGE_SIZE;
      merged := metadata[q].isFree && metadata[q].order == i;
      parent := addr;
      if merged {
        BuddyListRemove(q, i);
        if q < addr {
          parent := q;
        }
        assert Block(parent, i + 1) == Parent(b);
      }
    }

    // ---------- slab lists ----------

    /** Blocks, headers and lists are laid out; which slab belongs in which list is not required. */
    ghost predicate SlabsOK()
      reads this, freeAreas, metadata, slabHeads
    {
      && BuddyOK()
      && |slabLists| == 2 * NUM_CACHES
      && Lists(mem, slabHeads[..], slabLists, SLAB_PREV, SLAB_NEXT)
      && Headers(mem, h.slabs)
      && Within(slabLists, h.slabs)
    }

    method SlabListAdd(k: nat, p: nat)
      requires SlabsOK() && k < 2 * NUM_CACHES && p in h.slabs && !InSome(slabLists, p)
      modifies this`mem, this`slabLists, slabHeads
      ensures SlabsOK() && slabLists == Push(old(slabLists), p, k)
    {
      hide BuddyMem, Lists, Headers, Within, InSome, Load, PushMem;
      SlabAddLayout(mem, slabHeads[..], slabLists, h, freeAreas[..], metadata[..], k, p);
      var head := slabHeads[k];
      SlabPushMem(mem, head, p);
      mem := mem[Loc(p, SLAB_NEXT) := head];
      mem := mem[Loc(p, SLAB_PREV) := Null];
      if head.Ptr? {
        mem := mem[Loc(head.loc.page, SLAB_PREV) := Node(p)];
      }
      slabHeads[k] := Node(p);
      assert slabHeads[..] == old(slabHeads[..])[k := Node(p)];
      slabLists := Push(slabLists, p, k);
    }

    method SlabListRemove(k: nat, p: nat)
      requires SlabsOK() && k < 2 * NUM_CACHES && p in slabLists[k]
      modifies this`mem, this`slabLists, slabHeads
      ensures SlabsOK() && slabLists == Unlink(old(slabLists), p, k) && !InSome(slabLists, p)
    {
      hide BuddyMem, Lists, Headers, Within, InSome, UnlinkMem, UnlinkHead, Remove, Load;
      SlabRemoveLayout(mem, slabHeads[..], slabLists, h, freeAreas[..], metadata[..], k, p);
      var next := Load(mem, Loc(p, SLAB_NEXT));
      var prev := Load(mem, Loc(p, SLAB_PREV));
      SlabUnlinkMem(mem, slabHeads[k], p);
      ghost var head' := UnlinkHead(mem, slabHeads[k], p, SLAB_PREV, SLAB_NEXT);
      if next.Ptr? {
        mem := mem[Loc(next.loc.page, SLAB_PREV) := prev];
      }
      if prev.Ptr? {
        mem := mem[Loc(prev.loc.page, SLAB_NEXT) := next];
      } else {
        slabHeads[k] := next;
      }
      mem := mem[Loc(p, SLAB_PREV) := Null];
      assert slabHeads[..] == old(slabHeads[..])[k := head'];
      slabLists := Unlink(slabLists, p, k);
    }

    // ---------- slab_create ----------

    method SlabCreate(c: nat) returns (r: Word)
      requires SlabsOK() && BuddyModel.Inv(h.buddy) && c < NUM_CACHES
      modifies this`mem, this`h, freeAreas, metadata
      ensures SlabsOK()
      ensures match Alloc(old(h).buddy, 0)
              case Exhausted => r == Null && h == old(h)
              case Allocated(b, p) =>
                r == Node(p) && !InSome(slabLists, p) && h == old(h).(buddy := b, slabs := old(h).slabs[p := FreshSlab(c)])
    {
      hide BuddyMem, BuddyModel.Inv, Lists, Headers, Within, SameOn, HeaderOK, InSome, OnPage, Alloc, Unallocated;
      SlabsAreUsed(mem, freeAreas[..], metadata[..], h);
      AllocKeepsInv(h.buddy, 0);
      ghost var m0 := mem;
      r := BuddyAlloc(0);
      if r == Null {
        return;
      }
      SlabPartsFrame(m0, mem, slabHeads[..], slabLists, h.slabs, old(h).buddy.used);
      var p: nat := r.loc.page;
      InitSlabPage(p, c);
    }

    /** Header and chain of a new slab page. */
    method InitSlabPage(p: nat, c: nat)
      requires SlabsOK() && p in h.buddy.used && p !in h.slabs && c < NUM_CACHES
      modifies this`mem, this`h, metadata
      ensures SlabsOK() && h == old(h).(slabs := old(h).slabs[p := FreshSlab(c)])
      ensures !InSome(slabLists, p)
    {
      hide BuddyMem, Lists, Headers, Within, HeaderOK, InSome;
      ghost var m := mem;
      UsedInRange(mem, freeAreas[..], metadata[..], h, p);
      metadata[p] := metadata[p].(isSlab := true);
      mem := mem[Loc(p, SLAB_CACHE) := Cache(c)];
      mem := mem[Loc(p, SLAB_FREE_LIST) := Ptr(Loc(p, HEADER))];
      var count := ThreadSlots(p, c);
      ghost var m2 := mem;
      mem := mem[Loc(p, SLAB_COUNTS) := Counts(count, count)];
      ClassSizes(c);
      forall i: nat | i < Capacity(c)
        ensures FreshLink(mem, p, c, i)
      {
        assert FreshLink(m2, p, c, i);
      }
      FreshHeader(mem, p, c);
      NewSlabLayout(m, mem, freeAreas[..], old(metadata[..]), slabHeads[..], slabLists, h, p, FreshSlab(c));
      h := h.(slabs := h.slabs[p := FreshSlab(c)]);
      assert metadata[..] == old(metadata[..])[p := old(metadata[p]).(isSlab := true)];
    }

    /** Store in every slot the address of the next one, NULL in the last, and count them. */
    method ThreadSlots(p: nat, c: nat) returns (count: nat)
      requires c < NUM_CACHES
      modifies this`mem
      ensures count == Capacity(c)
      ensures forall i: nat :: i < Capacity(c) ==> FreshLink(mem, p, c, i)
      ensures forall x: Loc :: x.page != p || x.off < HEADER ==> Load(mem, x) == Load(old(mem), x)
    {
      var curr := HEADER;
      count := 0;
      SlotStep(c, 0);
      while curr + ObjSize(c) <= PAGE_SIZE
        invariant count <= Capacity(c) && curr == SlotOffset(c, count)
        invariant curr + ObjSize(c) <= PAGE_SIZE <==> count < Capacity(c)
        invariant forall i: nat :: i < count ==> FreshLink(mem, p, c, i)
        invariant forall x: Loc :: x.page != p || x.off < HEADER ==> Load(mem, x) == Load(old(mem), x)
        decreases Capacity(c) - count
      {
        SlotStep(c, count);
        SlotStep(c, count + 1);
        var next := curr + ObjSize(c);
        ghost var m := mem;
        if next + ObjSize(c) <= PAGE_SIZE {
          mem := mem[Loc(p, curr) := Ptr(Loc(p, next))];
        } else {
          mem := mem[Loc(p, curr) := Null];
        }
        forall i: nat | i < count
          ensures FreshLink(mem, p, c, i)
        {
          SlotsApart(c, i, count);
          assert FreshLink(m, p, c, i) && SlotLoc(p, c, i) != Loc(p, curr);
        }
        curr := next;
        count := count + 1;
      }
    }

    // ---------- slab_alloc ----------

    method SlabAlloc(c: nat, ghost size: nat) returns (r: Word)
      requires Valid() && c < NUM_CACHES && 0 < size <= ObjSize(c)
      modifies this`mem, this`h, this`slabLists, freeAreas, metadata, slabHeads
      ensures Valid()
      ensures h == HeapModel.SlabAlloc(old(h), c, size).0
      ensures r == match HeapModel.SlabAlloc(old(h), c, size).1 case None => Null case Some(o) => Ptr(SlotLoc(o.page, c, o.index))
    {
      SlabAllocKeepsInv(h, c, size);
      GrowKeepsCore(h, c);
      hide HeapInv, BuddyMem, Lists, Headers, Within, Core, Grow, Pop, BuddyModel.Inv;
      var ok := EnsurePartial(c);
      if !ok {
        return Null;
      }
      r := PopFirst(c, size);
    }

    /** If the cache has no partial slab, create one. */
    method EnsurePartial(c: nat) returns (ok: bool)
      requires Valid() && c < NUM_CACHES
      modifies this`mem, this`h, this`slabLists, freeAreas, metadata, slabHeads
      ensures SlabsOK() && slabLists == h.partial + h.full && |h.partial| == NUM_CACHES
      ensures ok <==> Grow(old(h), c).Some?
      ensures h == if ok then Grow(old(h), c).value else old(h)
    {
      hide BuddyMem, Lists, Headers, Within, BuddyModel.Inv, HeaderOK, LiveOK, Alloc;
      SlabListsWithin(h);
      SlabHeadOf(mem, slabHeads[..], slabLists, c);
      assert slabLists[c] == h.partial[c];
      if slabHeads[c] == Null {
        var r := SlabCreate(c);
        if r == Null {
          return false;
        }
        SlabListAdd(c, r.loc.page);
        PushPartial(h.partial, h.full, c, r.loc.page);
        BuddyMemOf(mem, freeAreas[..], metadata[..], h, h.(partial := h.partial[c := [r.loc.page]]));
        h := h.(partial := h.partial[c := [r.loc.page]]);
      }
      return true;
    }

    /** Take the first slot of the first partial slab, moving the slab to the full list if it was the last one. */
    method PopFirst(c: nat, ghost size: nat) returns (r: Word)
      requires SlabsOK() && slabLists == h.partial + h.full && c < NUM_CACHES && |h.partial| == NUM_CACHES
      requires CanPop(h, c) && h.slabs[h.partial[c][0]].cls == c
      modifies this`mem, this`h, this`slabLists, slabHeads
      ensures SlabsOK() && slabLists == h.partial + h.full
      ensures h == Pop(old(h), c, size).0
      ensures r == Ptr(SlotLoc(Pop(old(h), c, size).1.page, c, Pop(old(h), c, size).1.index))
    {
      hide BuddyMem, Lists, Headers, Within, HeaderOK, InSome;
      ghost var g := h;
      assert slabLists[c] == h.partial[c];
      SlabHeadOf(mem, slabHeads[..], slabLists, c);
      var p: nat := slabHeads[c].loc.page;
      ghost var s := g.slabs[p];
      var free;
      r, free := PopSlot(p);
      if free == 0 {
        SlabListRemove(c, p);
        SlabListAdd(NUM_CACHES + c, p);
        MoveToFull(g.partial, g.full, c, p);
      }
      BuddyMemOf(mem, freeAreas[..], metadata[..], h, Pop(g, c, size).0);
      h := Pop(g, c, size).0;
    }

    /** Unlink the first slot of slab page `p` and count it out. */
    method PopSlot(p: nat) returns (r: Word, free: nat)
      requires SlabsOK() && p in h.slabs && h.slabs[p].chain != []
      modifies this`mem, this`h
      ensures SlabsOK()
      ensures var s := old(h).slabs[p];
              && h == old(h).(slabs := old(h).slabs[p := s.(chain := s.chain[1..])])
              && r == Ptr(SlotLoc(p, s.cls, s.chain[0])) && free == |s.chain| - 1
    {
      hide BuddyMem, Lists, Headers, HeaderOK, Within, OnPage, SameLinks, Load, Capacity;
      ghost var m, s := mem, h.slabs[p];
      HeaderOf(mem, h.slabs, p);
      PopHeader(mem, p, s);
      HeaderCounts(mem, p, s);
      r := Load(mem, Loc(p, SLAB_FREE_LIST));
      var counts := Load(mem, Loc(p, SLAB_COUNTS));
      mem := mem[Loc(p, SLAB_FREE_LIST) := Load(mem, r.loc)];
      free := counts.free - 1;
      mem := mem[Loc(p, SLAB_COUNTS) := Counts(free, counts.total)];
      SlabPageChanged(m, mem, freeAreas[..], metadata[..], slabHeads[..], slabLists, h, p, s.(chain := s.chain[1..]));
      h := h.(slabs := h.slabs[p := s.(chain := s.chain[1..])]);
    }

    // ---------- slab_free ----------

    method SlabFree(x: Loc, ghost o: Obj)
      requires Valid() && o in h.live && o.Slot? && o.page in h.slabs && x == SlotLoc(o.page, h.slabs[o.page].cls, o.index)
      modifies this`mem, this`h, this`slabLists, freeAreas, metadata, slabHeads
      ensures Valid()
      ensures h == HeapModel.SlabFree(old(h), o)
    {
      hide HeapInv, Core, BuddyMem, Lists, Headers, Within, HeaderOK, InSome, BuddyModel.Inv, HeapModel.SlabFree, IsObject, Capacity, Free, Remove, SlotOffset, ReopenedLists;
      SlabFreeInv(h, o);
      ghost var goal := HeapModel.SlabFree(h, o);
      SlabFreeFacts(h, o);
      SlabFreeLists(h, o);
      SlabFreeState(h, o);
      SlabListsWithin(h);
      var p: nat := x.page;
      var c, counts := ReopenSlab(p);
      PutSlot(x, o.index);
      if counts.free + 1 == counts.total {
        SlabListRemove(c, p);
        ReleasePage(p);
      }
      BuddyMemOf(mem, freeAreas[..], metadata[..], h, goal);
      h := goal;
    }

    /** Read the header; a slab with no free slot moves from the full list to the partial list. */
    method ReopenSlab(p: nat) returns (c: nat, counts: Word)
      requires SlabsOK() && p in h.slabs && h.slabs[p].cls < NUM_CACHES
      requires p in slabLists[if h.slabs[p].chain == [] then NUM_CACHES + h.slabs[p].cls else h.slabs[p].cls]
      modifies this`mem, this`slabLists, slabHeads
      ensures SlabsOK() && c == h.slabs[p].cls && counts == Counts(|h.slabs[p].chain|, Capacity(c))
      ensures slabLists == ReopenedLists(old(slabLists), p, c, |h.slabs[p].chain|)
      ensures p in slabLists[c]
    {
      hide BuddyMem, Lists, Headers, Within, HeaderOK, InSome, Capacity;
      HeaderOf(mem, h.slabs, p);
      HeaderCounts(mem, p, h.slabs[p]);
      c := Load(mem, Loc(p, SLAB_CACHE)).id;
      counts := Load(mem, Loc(p, SLAB_COUNTS));
      if counts.free == 0 {
        SlabListRemove(NUM_CACHES + c, p);
        SlabListAdd(c, p);
      }
    }

    /** Thread the slot at `x` in front of its slab's chain and count it in. */
    method PutSlot(x: Loc, ghost j: nat)
      requires SlabsOK() && x.page >= 0 && x.page in h.slabs && x == SlotLoc(x.page, h.slabs[x.page].cls, j) && j !in h.slabs[x.page].chain
      modifies this`mem, this`h
      ensures SlabsOK()
      ensures var s := old(h).slabs[x.page]; h == old(h).(slabs := old(h).slabs[x.page := s.(chain := [j] + s.chain)])
    {
      hide BuddyMem, Lists, Headers, HeaderOK, Within, OnPage, SameLinks, Load, Capacity, SlotOffset;
      ghost var p: nat := x.page;
      ghost var m, s := mem, h.slabs[p];
      HeaderOf(mem, h.slabs, p);
      ReturnHeader(mem, p, s, j);
      HeaderCounts(mem, p, s);
      ReturnMemIs(mem, p, x);
      var counts := Load(mem, Loc(x.page, SLAB_COUNTS));
      mem := mem[x := Load(mem, Loc(x.page, SLAB_FREE_LIST))];
      mem := mem[Loc(x.page, SLAB_FREE_LIST) := Ptr(x)];
      mem := mem[Loc(x.page, SLAB_COUNTS) := Counts(counts.free + 1, counts.total)];
      SlabPageChanged(m, mem, freeAreas[..], metadata[..], slabHeads[..], slabLists, h, p, s.(chain := [j] + s.chain));
      h := h.(slabs := h.slabs[p := s.(chain := [j] + s.chain)]);
    }

    /** Give an unlinked slab page back to the buddy allocator. */
    method ReleasePage(p: nat)
      requires SlabsOK() && BuddyModel.Inv(h.buddy) && p in h.slabs && !InSome(slabLists, p)
      modifies this`mem, this`h, freeAreas, metadata
      ensures SlabsOK()
      ensures p in old(h).buddy.used && old(h).buddy.used[p] <= MAX_ORDERS && |old(h).buddy.lists| == MAX_ORDERS + 1
      ensures h == old(h).(buddy := Free(old(h).buddy, p), slabs := old(h).slabs - {p})
    {
      hide BuddyMem, BuddyModel.Inv, Lists, Headers, Within, HeaderOK, InSome, SameOn;
      SlabsAreUsed(mem, freeAreas[..], metadata[..], h);
      DropSlabLayout(mem, freeAreas[..], metadata[..], slabLists, h, p);
      metadata[p] := metadata[p].(isSlab := false);
      assert metadata[..] == old(metadata[..])[p := old(metadata[p]).(isSlab := false)];
      h := h.(slabs := h.slabs - {p});
      ghost var m := mem;
      BuddyFree(p);
      SlabPartsFrame(m, mem, slabHeads[..], slabLists, h.slabs, h.buddy.used);
    }

    // ---------- kmalloc and kfree ----------

    method Kmalloc(size: nat) returns (r: Word)
      requires Valid() && size <= 0x8000_0000_0000_0000
      modifies this`mem, this`h, this`slabLists, freeAreas, metadata, slabHeads
      ensures Valid()
      ensures h == HeapModel.Kmalloc(old(h), size).0
      ensures r == match HeapModel.Kmalloc(old(h), size).1 case None => Null case Some(o) => Ptr(LocOf(h, o))
    {
      hide HeapInv, BuddyMem, SlabMem, HeapModel.SlabAlloc, HeapModel.LargeAlloc;
      if size == 0 {
        return Null;
      }
      if size > MAX_SMALL {
        var order := 0;
        var s := PAGE_SIZE;
        while s < size
          invariant s == Pow2(order) * PAGE_SIZE && OrderFor(size, order) == OrderFor(size, 0)
          decreases size - s
        {
          s := s * 2 % 0x1_0000_0000_0000_0000;
          order := order + 1;
        }
        r := LargeAlloc(order, size);
        return;
      }
      for i := 0 to NUM_CACHES
        invariant h == old(h) && Valid()
        invariant ClassFor(size, i) == ClassFor(size, 0)
      {
        if size <= ObjSize(i) {
          SlabAllocKeepsInv(h, i, size);
          r := SlabAlloc(i, size);
          SlabAllocClass(old(h), i, size);
          return;
        }
      }
      return Null;
    }

    method LargeAlloc(order: nat, ghost size: nat) returns (r: Word)
      requires Valid() && 0 < size && order == OrderFor(size, 0)
      modifies this`mem, this`h, freeAreas, metadata
      ensures Valid()
      ensures h == HeapModel.LargeAlloc(old(h), size).0
      ensures r == match HeapModel.LargeAlloc(old(h), size).1 case None => Null case Some(o) => Ptr(LocOf(h, o))
    {
      hide BuddyMem, SlabMem, BuddyModel.Inv, SameOn, Alloc, ListsOK, LiveOK, HeapModel.SlabsOK, Retained, OrderFor;
      LargeAllocKeepsInv(h, size);
      ghost var h', m := HeapModel.LargeAlloc(h, size).0, mem;
      r := BuddyAlloc(order);
      LargeLayout(m, mem, freeAreas[..], metadata[..], slabHeads[..], old(h), h');
      h := h';
    }

    method Kfree(r: Word, ghost o: Obj)
      requires Valid() && (r == Null || (o in h.live && (o.Slot? ==> o.page in h.slabs) && r == Ptr(LocOf(h, o))))
      modifies this`mem, this`h, this`slabLists, freeAreas, metadata, slabHeads
      ensures Valid()
      ensures h == if r == Null then old(h) else HeapModel.Kfree(old(h), o)
    {
      hide BuddyMem, SlabMem, BuddyModel.Inv, SameOn, ListsOK, LiveOK, HeapModel.SlabsOK, Retained, HeapModel.SlabFree, Free;
      if r == Null {
        return;
      }
      SlabBit(mem, freeAreas[..], metadata[..], h, o);
      KfreeKeepsInv(h, o);
      var p: nat := r.loc.page;
      if metadata[p].isSlab {
        SlabFree(r.loc, o);
      } else {
        ghost var h', m := HeapModel.Kfree(h, o), mem;
        BuddyFree(p);
        LargeFreeLayout(m, mem, freeAreas[..], metadata[..], slabHeads[..], old(h), h');
        h := h';
      }
    }

    /** A caller stores a word in memory it was given and has not freed. */
    method ClientWrite(x: Loc, w: Word, ghost o: Obj)
      requires Valid() && Owns(h, o, x)
      modifies this`mem
      ensures Valid() && mem == old(mem)[x := w]
    {
      hide BuddyMem, SlabMem, HeapInv, Core, Owns;
      InvCore(h);
      ClientWriteLayout(mem, freeAreas[..], metadata[..], slabHeads[..], h, o, x, w);
      mem := mem[x := w];
    }

    lemma InvCore(h: Heap)
      requires HeapInv(h)
      ensures Core(h)
    {
    }
  }
}
