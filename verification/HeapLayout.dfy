/** How a heap value is laid out in memory, page metadata and list heads, and how each kernel write changes that. */
module HeapLayout {
  import opened Basics
  import opened Blocks
  import opened BuddyTiling
  import opened BuddyModel
  import opened HeapModel
  import opened HeapMemory

  datatype PageMeta = PageMeta(order: nat, isFree: bool, isSlab: bool)

  // Offsets of the link words in a free-block node and in a slab header
  const BLOCK_PREV: int := 0
  const BLOCK_NEXT: int := 8
  const SLAB_FREE_LIST: int := 0
  const SLAB_COUNTS: int := 8
  const SLAB_CACHE: int := 16
  const SLAB_PREV: int := 24
  const SLAB_NEXT: int := 32

  /** Page metadata: `isFree` marks exactly the heads of free blocks and `isSlab` exactly the slab pages. */
  ghost predicate MetaOK(meta: seq<PageMeta>, b: State, slabs: map<nat, Slab>) {
    && |meta| == TOTAL_PAGES
    && (forall p: nat :: p < TOTAL_PAGES ==> (meta[p].isFree <==> InSome(b.lists, p)) && (meta[p].isSlab <==> p in slabs))
    && (forall k, p {:trigger p in b.lists[k]} :: 0 <= k < |b.lists| && p in b.lists[k] ==> p < TOTAL_PAGES && meta[p].order == k)
    && (forall p :: p in b.used ==> p < TOTAL_PAGES && meta[p].order == b.used[p] && !meta[p].isFree)
  }

  ghost predicate BuddyMem(m: Memory, areas: seq<Word>, meta: seq<PageMeta>, h: Heap) {
    && |h.buddy.lists| == MAX_ORDERS + 1
    && Lists(m, areas, h.buddy.lists, BLOCK_PREV, BLOCK_NEXT)
    && MetaOK(meta, h.buddy, h.slabs)
    && (forall p :: p in h.slabs ==> p in h.buddy.used)
  }

  function SlotLoc(p: nat, c: nat, j: nat): Loc { Loc(p, SlotOffset(c, j)) }

  /** The pointer to element `i` of a slab's chain, NULL past its end. */
  function ChainWord(p: nat, s: Slab, i: nat): Word {
    if i < |s.chain| then Ptr(SlotLoc(p, s.cls, s.chain[i])) else Null
  }

  ghost predicate HeaderOK(m: Memory, p: nat, s: Slab) {
    && Load(m, Loc(p, SLAB_FREE_LIST)) == ChainWord(p, s, 0)
    && Load(m, Loc(p, SLAB_COUNTS)) == Counts(|s.chain|, Capacity(s.cls))
    && Load(m, Loc(p, SLAB_CACHE)) == Cache(s.cls)
    && (forall i :: 0 <= i < |s.chain| ==> Load(m, SlotLoc(p, s.cls, s.chain[i])) == ChainWord(p, s, i + 1))
  }

  ghost predicate SlabMem(m: Memory, heads: seq<Word>, h: Heap) {
    && Lists(m, heads, h.partial + h.full, SLAB_PREV, SLAB_NEXT)
    && Headers(m, h.slabs)
  }

  /** `m'` agrees with `m` on every page where a used block starts. */
  ghost predicate SameOn(m: Memory, m': Memory, used: map<nat, nat>) {
    forall x: Loc :: x.page in used ==> Load(m', x) == Load(m, x)
  }

  lemma SameOnSelf(m: Memory, used: map<nat, nat>)
    ensures SameOn(m, m, used)
  {
  }

  lemma SameOnTransitive(m: Memory, m1: Memory, m2: Memory, used: map<nat, nat>)
    requires SameOn(m, m1, used) && SameOn(m1, m2, used)
    ensures SameOn(m, m2, used)
  {
  }

  ghost predicate Headers(m: Memory, slabs: map<nat, Slab>) {
    forall q :: q in slabs ==> HeaderOK(m, q, slabs[q])
  }

  /** Only slab pages are in the slab lists. */
  ghost predicate Within(lists: seq<seq<nat>>, slabs: map<nat, Slab>) {
    forall q :: InSome(lists, q) ==> q in slabs
  }

  // ---------- buddy list operations ----------

  lemma AddLayout(m: Memory, areas: seq<Word>, meta: seq<PageMeta>, h: Heap, p: nat, k: nat)
    requires BuddyMem(m, areas, meta, h) && k <= MAX_ORDERS && p < TOTAL_PAGES
    requires !meta[p].isFree && p !in h.buddy.used && p !in h.slabs
    ensures var m' := PushMem(m, areas[k], p, BLOCK_PREV, BLOCK_NEXT);
            && BuddyMem(m', areas[k := Node(p)], meta[p := PageMeta(k, true, false)], h.(buddy := h.buddy.(lists := Push(h.buddy.lists, p, k))))
            && SameOn(m, m', h.buddy.used)
  {
    var lists := h.buddy.lists;
    assert !InSome(lists, p);
    PushLists(m, areas, lists, k, p, BLOCK_PREV, BLOCK_NEXT);
    PushTouches(m, areas[k], lists[k], p, BLOCK_PREV, BLOCK_NEXT);
    var m' := PushMem(m, areas[k], p, BLOCK_PREV, BLOCK_NEXT);
    forall x: Loc | x.page in h.buddy.used
      ensures Load(m', x) == Load(m, x)
    {
      UsedNotListed(meta, h, x.page);
    }
    PushMeta(meta, h, p, k);
  }

  lemma UsedNotListed(meta: seq<PageMeta>, h: Heap, p: nat)
    requires MetaOK(meta, h.buddy, h.slabs) && p in h.buddy.used
    ensures !InSome(h.buddy.lists, p)
  {
  }

  lemma PushInSome(lists: seq<seq<nat>>, p: nat, k: nat, q: nat)
    requires k < |lists|
    ensures InSome(Push(lists, p, k), q) <==> q == p || InSome(lists, q)
  {
    var r := Push(lists, p, k);
    assert forall j :: 0 <= j < |lists| ==> (q in r[j] <==> q in lists[j] || (q == p && j == k));
    assert p in r[k];
  }

  lemma PushMeta(meta: seq<PageMeta>, h: Heap, p: nat, k: nat)
    requires MetaOK(meta, h.buddy, h.slabs) && k < |h.buddy.lists| && p < TOTAL_PAGES && !InSome(h.buddy.lists, p)
    requires p !in h.buddy.used && p !in h.slabs
    ensures MetaOK(meta[p := PageMeta(k, true, false)], h.buddy.(lists := Push(h.buddy.lists, p, k)), h.slabs)
  {
    var lists := h.buddy.lists;
    forall q: nat
      ensures InSome(Push(lists, p, k), q) <==> q == p || InSome(lists, q)
    {
      PushInSome(lists, p, k, q);
    }
    var r := Push(lists, p, k);
    assert forall j :: 0 <= j < |lists| ==> p !in lists[j];
    assert forall j, q :: 0 <= j < |lists| ==> (q in r[j] <==> q in lists[j] || (q == p && j == k));
    var meta' := meta[p := PageMeta(k, true, false)];
    forall q: nat | q < TOTAL_PAGES
      ensures meta'[q].isFree <==> InSome(r, q)
    {
    }
    assert forall j, q {:trigger q in r[j]} :: 0 <= j < |r| && q in r[j] ==> q < TOTAL_PAGES && meta'[q].order == j;
  }

  lemma UnlinkInSome(lists: seq<seq<nat>>, p: nat, k: nat, q: nat)
    requires NoCommon(lists) && k < |lists| && p in lists[k] && Distinct(lists[k])
    ensures InSome(Unlink(lists, p, k), q) <==> q != p && InSome(lists, q)
  {
    RemoveElements(lists[k], p);
    var r := Unlink(lists, p, k);
    assert forall j :: 0 <= j < |lists| ==> (q in r[j] <==> q in lists[j] && !(q == p && j == k));
  }

  lemma RemoveLayout(m: Memory, areas: seq<Word>, meta: seq<PageMeta>, h: Heap, p: nat, k: nat)
    requires BuddyMem(m, areas, meta, h) && k <= MAX_ORDERS && p in h.buddy.lists[k]
    ensures p < TOTAL_PAGES
    ensures var m' := UnlinkMem(m, p, BLOCK_PREV, BLOCK_NEXT);
            && BuddyMem(m', areas[k := UnlinkHead(m, areas[k], p, BLOCK_PREV, BLOCK_NEXT)], meta[p := meta[p].(isFree := false)],
                        h.(buddy := h.buddy.(lists := Unlink(h.buddy.lists, p, k))))
            && SameOn(m, m', h.buddy.used)
  {
    var lists := h.buddy.lists;
    assert NoCommon(lists);
    UnlinkLists(m, areas, lists, k, p, BLOCK_PREV, BLOCK_NEXT);
    UnlinkMeta(meta, h, p, k);
    var i :| 0 <= i < |lists[k]| && lists[k][i] == p;
    UnlinkTouches(m, areas[k], lists[k], i, BLOCK_PREV, BLOCK_NEXT);
    var m' := UnlinkMem(m, p, BLOCK_PREV, BLOCK_NEXT);
    assert forall q :: q in lists[k] ==> InSome(lists, q);
    forall x: Loc | x.page in h.buddy.used
      ensures Load(m', x) == Load(m, x)
    {
      UsedNotListed(meta, h, x.page);
    }
  }

  lemma UnlinkMeta(meta: seq<PageMeta>, h: Heap, p: nat, k: nat)
    requires MetaOK(meta, h.buddy, h.slabs) && k < |h.buddy.lists| && p < TOTAL_PAGES && NoCommon(h.buddy.lists)
    requires p in h.buddy.lists[k] && Distinct(h.buddy.lists[k])
    ensures MetaOK(meta[p := meta[p].(isFree := false)], h.buddy.(lists := Unlink(h.buddy.lists, p, k)), h.slabs)
  {
    var lists := h.buddy.lists;
    forall q: nat
      ensures InSome(Unlink(lists, p, k), q) <==> q != p && InSome(lists, q)
    {
      UnlinkInSome(lists, p, k, q);
    }
    RemoveElements(lists[k], p);
    var r := Unlink(lists, p, k);
    assert forall j, q :: 0 <= j < |lists| && q in r[j] ==> q in lists[j];
    var meta' := meta[p := meta[p].(isFree := false)];
    forall q: nat | q < TOTAL_PAGES
      ensures meta'[q].isFree <==> InSome(r, q)
    {
    }
    assert forall j, q {:trigger q in r[j]} :: 0 <= j < |r| && q in r[j] ==> q < TOTAL_PAGES && meta'[q].order == j;
  }

  /** Block `b` has been taken out of the free lists and is not yet, or no longer, recorded as used. */
  ghost predicate InHand(s: State, b: Block) {
    && WellFormed(s.lists) && b !in UsedSet(s.used)
    && Canonical(FreeSet(s.lists), UsedSet(s.used) + {b})
  }

  /** No free or used block starts on the pages of the block in hand. */
  lemma HandClear(s: State, b: Block, x: nat)
    requires InHand(s, b) && Contains(b, x)
    ensures x < TOTAL_PAGES && !InSome(s.lists, x) && x !in s.used && Placed(b)
  {
    var all := FreeSet(s.lists) + (UsedSet(s.used) + {b});
    assert b in all;
    forall k, y | 0 <= k < |s.lists| && y in s.lists[k]
      ensures y != x
    {
      assert Block(y, k) in FreeSet(s.lists);
      assert Block(y, k) in all && Apart(b, Block(y, k));
    }
    forall u | u in s.used
      ensures u != x
    {
      assert Block(u, s.used[u]) in UsedSet(s.used);
      assert Block(u, s.used[u]) in all && Apart(b, Block(u, s.used[u]));
    }
  }

  /** Recording an allocation in the metadata. */
  lemma AllocMeta(meta: seq<PageMeta>, b: State, slabs: map<nat, Slab>, p: nat, order: nat)
    requires MetaOK(meta, b, slabs) && p < TOTAL_PAGES && !InSome(b.lists, p) && p !in slabs
    ensures MetaOK(meta[p := PageMeta(order, false, false)], b.(used := b.used[p := order]), slabs)
  {
  }

  /** What a page's metadata says about the block of order `k` that would start there. */
  lemma FreeByMeta(meta: seq<PageMeta>, b: State, slabs: map<nat, Slab>, q: nat, k: nat)
    requires MetaOK(meta, b, slabs) && k < |b.lists| && q < TOTAL_PAGES
    ensures meta[q].isFree && meta[q].order == k <==> q in b.lists[k]
  {
    if meta[q].isFree {
      var j :| 0 <= j < |b.lists| && q in b.lists[j];
    } else {
      assert !InSome(b.lists, q);
    }
  }

  /** Unlinking the head of the first list that is long enough puts that block in hand. */
  lemma BeginSplit(b: State, order: nat, i: nat)
    requires BuddyModel.Inv(b) && FirstFit(b.lists, order) == i < |b.lists|
    ensures var p := b.lists[i][0];
            && p in b.lists[i] && InHand(b.(lists := Unlink(b.lists, p, i)), Block(p, i))
            && Alloc(b, order) == Allocated(State(SplitDown(Unlink(b.lists, p, i), p, i, order), b.used[p := order]), p)
  {
    var p := b.lists[i][0];
    assert Unlink(b.lists, p, i) == b.lists[i := b.lists[i][1..]];
    UnlinkSet(b.lists, p, i);
    assert p in b.lists[i];
    assert Block(p, i) in FreeSet(b.lists);
    Take(FreeSet(b.lists), UsedSet(b.used), Block(p, i));
  }

  /** One halving: the exclusive-or gives the upper half, which no list holds yet. */
  lemma SplitOnce(s: State, p: nat, i: nat)
    requires i < MAX_ORDERS && InHand(s, Block(p, i + 1))
    ensures var q := p + Pow2(i);
            && Xor(PageAddress(p), Pow2(i) * PAGE_SIZE) == PageAddress(q)
            && q < TOTAL_PAGES && !InSome(s.lists, q) && q !in s.used
            && InHand(s.(lists := Push(s.lists, q, i)), Block(p, i))
  {
    hide Xor, PageAddress, Canonical, WellFormed, Contains, Placed, Pow2, FreeSet, UsedSet;
    var b := Block(p, i + 1);
    HandHalves(s, p, i);
    var q := p + Pow2(i);
    HandClear(s, b, p);
    HandClear(s, b, q);
    XorIsBuddy(Lower(b));
    Split(FreeSet(s.lists), UsedSet(s.used) + {b}, b);
    HandParts(s, b);
    assert UsedSet(s.used) + {b} - {b} + {Lower(b)} == UsedSet(s.used) + {Block(p, i)};
    PushSet(s.lists, q, i);
  }

  lemma HandParts(s: State, b: Block)
    requires InHand(s, b)
    ensures WellFormed(s.lists) && |s.lists| == MAX_ORDERS + 1 && b !in UsedSet(s.used)
  {
    hide Canonical;
  }

  lemma HandHalves(s: State, p: nat, i: nat)
    requires i < MAX_ORDERS && InHand(s, Block(p, i + 1))
    ensures var b, q := Block(p, i + 1), p + Pow2(i);
            && WellFormed(s.lists) && Canonical(FreeSet(s.lists), UsedSet(s.used) + {b})
            && Lower(b) == Block(p, i) && Upper(b) == Block(q, i) && Contains(b, p) && Contains(b, q)
            && Placed(b) && Placed(Lower(b)) && Placed(Upper(b)) && Buddy(Lower(b)) == Upper(b)
  {
    hide Canonical, WellFormed, FreeSet, UsedSet;
    var b := Block(p, i + 1);
    HandPlaced(s, b);
    Pow2Step(i);
    Halves(b);
  }

  lemma HandPlaced(s: State, b: Block)
    requires InHand(s, b)
    ensures Placed(b)
  {
    assert b in FreeSet(s.lists) + (UsedSet(s.used) + {b});
  }

  /** A list head is NULL exactly when the list is empty, and points to its first element otherwise. */
  lemma HeadOf(m: Memory, areas: seq<Word>, meta: seq<PageMeta>, h: Heap, k: nat)
    requires BuddyMem(m, areas, meta, h) && k <= MAX_ORDERS
    ensures |h.buddy.lists| == |areas| == MAX_ORDERS + 1
    ensures areas[k] == Null <==> h.buddy.lists[k] == []
    ensures areas[k] != Null ==> areas[k] == Node(h.buddy.lists[k][0]) && h.buddy.lists[k][0] in h.buddy.lists[k]
  {
  }

  /** The upper half may be linked. */
  lemma UpperListable(m: Memory, areas: seq<Word>, meta: seq<PageMeta>, h: Heap, p: nat, i: nat)
    requires BuddyMem(m, areas, meta, h) && i < MAX_ORDERS && InHand(h.buddy, Block(p, i + 1))
    ensures var q := p + Pow2(i);
            && Xor(PageAddress(p), Pow2(i) * PAGE_SIZE) == PageAddress(q)
            && q < TOTAL_PAGES && !meta[q].isFree && q !in h.buddy.used && q !in h.slabs
            && InHand(h.buddy.(lists := Push(h.buddy.lists, q, i)), Block(p, i))
  {
    hide InHand, Xor;
    SplitOnce(h.buddy, p, i);
  }

  lemma SplitDownStep(lists: seq<seq<nat>>, p: nat, i: nat, order: nat)
    requires order <= i && i + 1 < |lists|
    ensures SplitDown(lists, p, i + 1, order) == SplitDown(Push(lists, p + Pow2(i), i), p, i, order)
  {
  }

  lemma SplitDownBase(lists: seq<seq<nat>>, p: nat, order: nat)
    requires order < |lists|
    ensures SplitDown(lists, p, order, order) == lists
  {
  }

  /** The block in hand becomes a used block. */
  lemma EndSplit(m: Memory, areas: seq<Word>, meta: seq<PageMeta>, h: Heap, p: nat, order: nat)
    requires BuddyMem(m, areas, meta, h) && InHand(h.buddy, Block(p, order))
    ensures p < TOTAL_PAGES
    ensures BuddyMem(m, areas, meta[p := PageMeta(order, false, false)], h.(buddy := h.buddy.(used := h.buddy.used[p := order])))
  {
    HandClear(h.buddy, Block(p, order), p);
    AllocMeta(meta, h.buddy, h.slabs, p, order);
  }

  /** Freeing puts a used block in hand. */
  lemma BeginFree(m: Memory, areas: seq<Word>, meta: seq<PageMeta>, h: Heap, p: nat)
    requires BuddyMem(m, areas, meta, h) && BuddyModel.Inv(h.buddy) && p in h.buddy.used && p !in h.slabs
    ensures var s := h.buddy.(used := h.buddy.used - {p});
            && h.buddy.used[p] <= MAX_ORDERS && p < TOTAL_PAGES && meta[p].order == h.buddy.used[p]
            && BuddyMem(m, areas, meta, h.(buddy := s)) && InHand(s, Block(p, h.buddy.used[p]))
  {
    var b := Block(p, h.buddy.used[p]);
    UsedSetRemove(h.buddy.used, p);
    assert b in UsedSet(h.buddy.used);
    assert b in FreeSet(h.buddy.lists) + UsedSet(h.buddy.used);
    assert UsedSet(h.buddy.used) - {b} + {b} == UsedSet(h.buddy.used);
  }

  /** One merge with a free buddy. */
  lemma MergeOnce(s: State, b: Block)
    requires InHand(s, b) && b.order < MAX_ORDERS && Buddy(b).page in s.lists[b.order]
    ensures InHand(s.(lists := Unlink(s.lists, Buddy(b).page, b.order)), Parent(b))
    ensures Release(s.lists, b) == Release(Unlink(s.lists, Buddy(b).page, b.order), Parent(b))
  {
    var used := UsedSet(s.used);
    assert Buddy(b) in FreeSet(s.lists);
    Merge(FreeSet(s.lists), used + {b}, b);
    UnlinkSet(s.lists, Buddy(b).page, b.order);
    assert used + {b} - {b} + {Parent(b)} == used + {Parent(b)};
  }

  lemma ReleaseEnds(lists: seq<seq<nat>>, b: Block)
    requires b.order < |lists| == MAX_ORDERS + 1
    requires b.order == MAX_ORDERS || Buddy(b).page !in lists[b.order]
    ensures Release(lists, b) == Push(lists, b.page, b.order)
  {
  }

  /** A block in hand that cannot merge may be linked. */
  lemma HandListable(m: Memory, areas: seq<Word>, meta: seq<PageMeta>, h: Heap, b: Block)
    requires BuddyMem(m, areas, meta, h) && InHand(h.buddy, b)
    ensures b.order <= MAX_ORDERS && b.page < TOTAL_PAGES && !meta[b.page].isFree && b.page !in h.buddy.used && b.page !in h.slabs
  {
    HandClear(h.buddy, b, b.page);
  }

  /** The address arithmetic for the block in hand: the exclusive-or gives its buddy. */
  lemma HandBuddy(s: State, b: Block)
    requires InHand(s, b) && b.order < MAX_ORDERS
    ensures Placed(b) && Buddy(b).page < TOTAL_PAGES
    ensures Xor(PageAddress(b.page), Pow2(b.order) * PAGE_SIZE) == PageAddress(Buddy(b).page)
  {
    HandClear(s, b, b.page);
    XorIsBuddy(b);
    BuddyHalves(b);
  }

  /** What one turn of the merging loop finds in the metadata, and what a merge leaves in hand. */
  lemma BuddyByMeta(m: Memory, areas: seq<Word>, meta: seq<PageMeta>, h: Heap, b: Block)
    requires BuddyMem(m, areas, meta, h) && InHand(h.buddy, b) && b.order < MAX_ORDERS
    ensures |h.buddy.lists| == MAX_ORDERS + 1
    ensures var q := Buddy(b).page;
            && Xor(PageAddress(b.page), Pow2(b.order) * PAGE_SIZE) == PageAddress(q) && q < TOTAL_PAGES
            && (meta[q].isFree && meta[q].order == b.order <==> q in h.buddy.lists[b.order])
            && (q in h.buddy.lists[b.order] ==>
                 && InHand(h.buddy.(lists := Unlink(h.buddy.lists, q, b.order)), Parent(b))
                 && Release(h.buddy.lists, b) == Release(Unlink(h.buddy.lists, q, b.order), Parent(b)))
  {
    hide InHand, Release, Xor, Buddy;
    HandBuddy(h.buddy, b);
    FreeByMeta(meta, h.buddy, h.slabs, Buddy(b).page, b.order);
    if Buddy(b).page in h.buddy.lists[b.order] {
      MergeOnce(h.buddy, b);
    }
  }

  // ---------- writes inside one page ----------

  /** `m'` differs from `m` on page `p` only. */
  ghost predicate OnPage(m: Memory, m': Memory, p: nat) {
    forall x: Loc :: x.page != p ==> Load(m', x) == Load(m, x)
  }

  lemma BuddyMemFrame(m: Memory, m': Memory, areas: seq<Word>, meta: seq<PageMeta>, h: Heap)
    requires BuddyMem(m, areas, meta, h)
    requires forall x: Loc :: x.page !in h.buddy.used ==> Load(m', x) == Load(m, x)
    ensures BuddyMem(m', areas, meta, h)
  {
    hide Load, Lists;
    var lists := h.buddy.lists;
    forall p: nat | InSome(lists, p)
      ensures Load(m', Loc(p, BLOCK_PREV)) == Load(m, Loc(p, BLOCK_PREV)) && Load(m', Loc(p, BLOCK_NEXT)) == Load(m, Loc(p, BLOCK_NEXT))
    {
      if p in h.buddy.used { UsedNotListed(meta, h, p); }
    }
    ListsFrame(m, m', areas, lists, BLOCK_PREV, BLOCK_NEXT);
  }

  lemma HeaderFrame(m: Memory, m': Memory, p: nat, s: Slab)
    requires HeaderOK(m, p, s)
    requires forall x: Loc :: x.page == p && x.off != SLAB_PREV && x.off != SLAB_NEXT ==> Load(m', x) == Load(m, x)
    ensures HeaderOK(m', p, s)
  {
    hide Load, SlotOffset, ChainWord;
    forall i | 0 <= i < |s.chain|
      ensures Load(m', SlotLoc(p, s.cls, s.chain[i])) == ChainWord(p, s, i + 1)
    {
      assert Load(m, SlotLoc(p, s.cls, s.chain[i])) == ChainWord(p, s, i + 1);
    }
  }

  /** Headers and chains of every slab except possibly `p`. */
  ghost predicate HeadersBut(m: Memory, slabs: map<nat, Slab>, p: nat) {
    forall q :: q in slabs && q != p ==> HeaderOK(m, q, slabs[q])
  }

  lemma HeadersFrame(m: Memory, m': Memory, slabs: map<nat, Slab>, p: nat)
    requires OnPage(m, m', p) && HeadersBut(m, slabs, p)
    ensures HeadersBut(m', slabs, p)
  {
    hide Load, HeaderOK;
    forall q | q in slabs && q != p
      ensures HeaderOK(m', q, slabs[q])
    {
      HeaderFrame(m, m', q, slabs[q]);
    }
  }

  // ---------- slab pages ----------

  /** Marking a used page as slab page. */
  lemma MarkSlab(meta: seq<PageMeta>, b: State, slabs: map<nat, Slab>, p: nat, s: Slab)
    requires MetaOK(meta, b, slabs) && p in b.used && p < TOTAL_PAGES
    ensures MetaOK(meta[p := meta[p].(isSlab := true)], b, slabs[p := s])
  {
    hide InSome;
  }

  lemma UnmarkSlab(meta: seq<PageMeta>, b: State, slabs: map<nat, Slab>, p: nat)
    requires MetaOK(meta, b, slabs) && p in b.used && p < TOTAL_PAGES
    ensures MetaOK(meta[p := meta[p].(isSlab := false)], b, slabs - {p})
  {
    hide InSome;
  }

  /** The list links of slab page `p` are as before. */
  ghost predicate SameLinks(m: Memory, m': Memory, p: nat) {
    Load(m', Loc(p, SLAB_PREV)) == Load(m, Loc(p, SLAB_PREV)) && Load(m', Loc(p, SLAB_NEXT)) == Load(m, Loc(p, SLAB_NEXT))
  }

  /** Popping the first slot off a slab's chain. */
  lemma PopHeader(m: Memory, p: nat, s: Slab)
    requires HeaderOK(m, p, s) && s.chain != []
    ensures Load(m, Loc(p, SLAB_FREE_LIST)) == Ptr(SlotLoc(p, s.cls, s.chain[0]))
    ensures var m' := m[Loc(p, SLAB_FREE_LIST) := Load(m, SlotLoc(p, s.cls, s.chain[0]))][Loc(p, SLAB_COUNTS) := Counts(|s.chain| - 1, Capacity(s.cls))];
            && HeaderOK(m', p, s.(chain := s.chain[1..])) && OnPage(m, m', p) && SameLinks(m, m', p)
  {
    hide SlotOffset, ChainWord, Load, Capacity, HeaderOK, OnPage, SameLinks;
    ChainAt(m, p, s, 0);
    TailWords(p, s);
    var t := s.(chain := s.chain[1..]);
    var w, c := Load(m, SlotLoc(p, s.cls, s.chain[0])), Counts(|s.chain| - 1, Capacity(s.cls));
    HeaderWritten(m, p, w, c);
    var m' := m[Loc(p, SLAB_FREE_LIST) := w][Loc(p, SLAB_COUNTS) := c];
    forall i | 0 <= i < |t.chain|
      ensures Load(m', SlotLoc(p, t.cls, t.chain[i])) == ChainWord(p, t, i + 1)
    {
      ChainAt(m, p, s, i + 1);
    }
    HeaderParts(m, p, s);
    HeaderFrom(m', p, t);
  }

  /** The words of a slab's tail. */
  lemma TailWords(p: nat, s: Slab)
    requires s.chain != []
    ensures ChainWord(p, s, 0) == Ptr(SlotLoc(p, s.cls, s.chain[0]))
    ensures forall i: nat :: i <= |s.chain| - 1 ==> ChainWord(p, s.(chain := s.chain[1..]), i) == ChainWord(p, s, i + 1)
  {
  }

  lemma ChainAt(m: Memory, p: nat, s: Slab, i: nat)
    requires HeaderOK(m, p, s) && i < |s.chain|
    ensures Load(m, SlotLoc(p, s.cls, s.chain[i])) == ChainWord(p, s, i + 1)
  {
  }

  lemma HeaderParts(m: Memory, p: nat, s: Slab)
    requires HeaderOK(m, p, s)
    ensures Load(m, Loc(p, SLAB_FREE_LIST)) == ChainWord(p, s, 0) && Load(m, Loc(p, SLAB_CACHE)) == Cache(s.cls)
  {
  }

  lemma HeaderFrom(m: Memory, p: nat, s: Slab)
    requires Load(m, Loc(p, SLAB_FREE_LIST)) == ChainWord(p, s, 0)
    requires Load(m, Loc(p, SLAB_COUNTS)) == Counts(|s.chain|, Capacity(s.cls)) && Load(m, Loc(p, SLAB_CACHE)) == Cache(s.cls)
    requires forall i :: 0 <= i < |s.chain| ==> Load(m, SlotLoc(p, s.cls, s.chain[i])) == ChainWord(p, s, i + 1)
    ensures HeaderOK(m, p, s)
  {
  }

  /** Writing chain head and counters leaves the rest of memory as it was. */
  lemma HeaderWritten(m: Memory, p: nat, w: Word, c: Word)
    ensures var m' := m[Loc(p, SLAB_FREE_LIST) := w][Loc(p, SLAB_COUNTS) := c];
            && Load(m', Loc(p, SLAB_FREE_LIST)) == w && Load(m', Loc(p, SLAB_COUNTS)) == c
            && Load(m', Loc(p, SLAB_CACHE)) == Load(m, Loc(p, SLAB_CACHE))
            && OnPage(m, m', p) && SameLinks(m, m', p)
            && forall cls, j: nat :: Load(m', SlotLoc(p, cls, j)) == Load(m, SlotLoc(p, cls, j))
  {
    hide ObjSize;
  }

  /** What giving back the slot at `x` writes: its link, the chain head and the counters. */
  function ReturnMem(m: Memory, p: nat, x: Loc, free: nat, total: nat): Memory {
    m[x := Load(m, Loc(p, SLAB_FREE_LIST))][Loc(p, SLAB_FREE_LIST) := Ptr(x)][Loc(p, SLAB_COUNTS) := Counts(free, total)]
  }

  lemma ReturnLoads(m: Memory, p: nat, x: Loc, free: nat, total: nat)
    requires x.page == p && x.off >= HEADER
    ensures var m' := ReturnMem(m, p, x, free, total);
            && Load(m', x) == Load(m, Loc(p, SLAB_FREE_LIST))
            && Load(m', Loc(p, SLAB_FREE_LIST)) == Ptr(x) && Load(m', Loc(p, SLAB_COUNTS)) == Counts(free, total)
            && forall y :: y != x && y != Loc(p, SLAB_FREE_LIST) && y != Loc(p, SLAB_COUNTS) ==> Load(m', y) == Load(m, y)
  {
  }

  lemma SlotNotIn(s: Slab, j: nat)
    requires j !in s.chain
    ensures forall i :: 0 <= i < |s.chain| ==> SlotOffset(s.cls, s.chain[i]) != SlotOffset(s.cls, j)
  {
    forall i | 0 <= i < |s.chain|
      ensures SlotOffset(s.cls, s.chain[i]) != SlotOffset(s.cls, j)
    {
      assert s.chain[i] in s.chain;
      SlotsApart(s.cls, s.chain[i], j);
    }
  }

  lemma LongerChain(p: nat, s: Slab, j: nat, i: nat)
    ensures ChainWord(p, s.(chain := [j] + s.chain), i + 1) == ChainWord(p, s, i)
    ensures ChainWord(p, s.(chain := [j] + s.chain), 0) == Ptr(SlotLoc(p, s.cls, j))
  {
  }

  /** Threading a returned slot in front of a slab's chain. */
  lemma ReturnHeader(m: Memory, p: nat, s: Slab, j: nat)
    requires HeaderOK(m, p, s) && j !in s.chain
    ensures var m' := ReturnMem(m, p, SlotLoc(p, s.cls, j), |s.chain| + 1, Capacity(s.cls));
            HeaderOK(m', p, s.(chain := [j] + s.chain)) && OnPage(m, m', p) && SameLinks(m, m', p)
  {
    hide SlotOffset, ChainWord, Load, ReturnMem, Capacity;
    var t := s.(chain := [j] + s.chain);
    var m' := ReturnMem(m, p, SlotLoc(p, s.cls, j), |s.chain| + 1, Capacity(s.cls));
    ReturnLoads(m, p, SlotLoc(p, s.cls, j), |s.chain| + 1, Capacity(s.cls));
    SlotNotIn(s, j);
    LongerChain(p, s, j, 0);
    forall i | 0 <= i < |t.chain|
      ensures Load(m', SlotLoc(p, t.cls, t.chain[i])) == ChainWord(p, t, i + 1)
    {
      LongerChain(p, s, j, i);
      if i > 0 {
        assert t.chain[i] == s.chain[i - 1];
        assert Load(m, SlotLoc(p, s.cls, s.chain[i - 1])) == ChainWord(p, s, i);
      }
    }
  }

  /** The link `slab_create` stores in slot i: the next slot, or NULL in the last one. */
  ghost predicate FreshLink(m: Memory, p: nat, c: nat, i: nat) {
    Load(m, SlotLoc(p, c, i)) == if i + 1 < Capacity(c) then Ptr(SlotLoc(p, c, i + 1)) else Null
  }

  /** The chain that `slab_create` threads: slot i links to slot i + 1, the last slot to NULL. */
  lemma FreshHeader(m: Memory, p: nat, c: nat)
    requires c < NUM_CACHES && 1 <= Capacity(c)
    requires Load(m, Loc(p, SLAB_FREE_LIST)) == Ptr(Loc(p, HEADER))
    requires Load(m, Loc(p, SLAB_COUNTS)) == Counts(Capacity(c), Capacity(c))
    requires Load(m, Loc(p, SLAB_CACHE)) == Cache(c)
    requires forall i: nat :: i < Capacity(c) ==> FreshLink(m, p, c, i)
    ensures HeaderOK(m, p, FreshSlab(c))
  {
    var s := FreshSlab(c);
    assert SlotLoc(p, c, 0) == Loc(p, HEADER);
    hide Load, SlotOffset, Capacity;
    forall i: nat | i < |s.chain|
      ensures Load(m, SlotLoc(p, s.cls, s.chain[i])) == ChainWord(p, s, i + 1)
    {
      assert s.chain[i] == i && s.cls == c;
      assert FreshLink(m, p, c, i);
      assert i + 1 < |s.chain| ==> s.chain[i + 1] == i + 1;
    }
  }

  // ---------- slab list operations ----------

  /** Linking a slab page into, or out of, one of the slab lists touches no header, no chain and no free block. */
  lemma SlabAddLayout(m: Memory, heads: seq<Word>, lists: seq<seq<nat>>, h: Heap, areas: seq<Word>, meta: seq<PageMeta>, k: nat, p: nat)
    requires BuddyMem(m, areas, meta, h) && Lists(m, heads, lists, SLAB_PREV, SLAB_NEXT)
    requires Headers(m, h.slabs)
    requires k < |lists| && !InSome(lists, p) && p in h.slabs && Within(lists, h.slabs)
    ensures var m' := PushMem(m, heads[k], p, SLAB_PREV, SLAB_NEXT);
            && Lists(m', heads[k := Node(p)], Push(lists, p, k), SLAB_PREV, SLAB_NEXT) && Within(Push(lists, p, k), h.slabs)
            && BuddyMem(m', areas, meta, h)
            && Headers(m', h.slabs)
  {
    hide Lists, Linked, PushMem, Load, BuddyMem, Headers, Push, NoCommon, InSome;
    ListAt(m, heads, lists, k);
    var m' := PushMem(m, heads[k], p, SLAB_PREV, SLAB_NEXT);
    PushLists(m, heads, lists, k, p, SLAB_PREV, SLAB_NEXT);
    HeadIs(m, heads[k], lists[k], SLAB_PREV, SLAB_NEXT);
    PushTouches(m, heads[k], lists[k], p, SLAB_PREV, SLAB_NEXT);
    PushWithin(lists, p, k, h.slabs);
    SlabLinkFrame(m, m', areas, meta, h);
  }

  lemma SlabRemoveLayout(m: Memory, heads: seq<Word>, lists: seq<seq<nat>>, h: Heap, areas: seq<Word>, meta: seq<PageMeta>, k: nat, p: nat)
    requires BuddyMem(m, areas, meta, h) && Lists(m, heads, lists, SLAB_PREV, SLAB_NEXT)
    requires Headers(m, h.slabs)
    requires k < |lists| && p in lists[k] && Within(lists, h.slabs)
    ensures var m' := UnlinkMem(m, p, SLAB_PREV, SLAB_NEXT)[Loc(p, SLAB_PREV) := Null];
            && Lists(m', heads[k := UnlinkHead(m, heads[k], p, SLAB_PREV, SLAB_NEXT)], Unlink(lists, p, k), SLAB_PREV, SLAB_NEXT)
            && Within(Unlink(lists, p, k), h.slabs)
            && BuddyMem(m', areas, meta, h)
            && Headers(m', h.slabs)
    ensures !InSome(Unlink(lists, p, k), p)
  {
    hide UnlinkMem, UnlinkHead, Load, Headers, BuddyMem, Lists, Linked, Unlink, NoCommon, InSome;
    var m1 := UnlinkMem(m, p, SLAB_PREV, SLAB_NEXT);
    var m' := m1[Loc(p, SLAB_PREV) := Null];
    UnlinkLists(m, heads, lists, k, p, SLAB_PREV, SLAB_NEXT);
    ListAt(m, heads, lists, k);
    RemovedTouches(m, heads[k], lists[k], p);
    UnlinkWithin(lists, p, k, h.slabs);
    var heads' := heads[k := UnlinkHead(m, heads[k], p, SLAB_PREV, SLAB_NEXT)];
    LoadBut(m1, Loc(p, SLAB_PREV));
    ListsFrame(m1, m', heads', Unlink(lists, p, k), SLAB_PREV, SLAB_NEXT);
    SlabLinkFrame(m, m', areas, meta, h);
  }

  /** One list of a family. */
  lemma ListAt(m: Memory, heads: seq<Word>, lists: seq<seq<nat>>, k: nat)
    requires Lists(m, heads, lists, SLAB_PREV, SLAB_NEXT) && k < |lists|
    ensures |heads| == |lists| && NoCommon(lists) && Distinct(lists[k]) && Linked(m, heads[k], lists[k], SLAB_PREV, SLAB_NEXT)
    ensures forall q :: q in lists[k] ==> InSome(lists, q)
  {
    hide Linked, NoCommon;
  }

  lemma LoadBut(m: Memory, x: Loc)
    ensures forall y: Loc :: y != x ==> Load(m[x := Null], y) == Load(m, y)
  {
  }

  lemma RemovedTouches(m: Memory, head: Word, l: seq<nat>, p: nat)
    requires Linked(m, head, l, SLAB_PREV, SLAB_NEXT) && p in l
    ensures forall x: Loc :: (forall q :: q in l ==> q != x.page) || (x.off != SLAB_PREV && x.off != SLAB_NEXT) ==>
              Load(UnlinkMem(m, p, SLAB_PREV, SLAB_NEXT)[Loc(p, SLAB_PREV) := Null], x) == Load(m, x)
  {
    hide UnlinkMem;
    var i :| 0 <= i < |l| && l[i] == p;
    UnlinkTouches(m, head, l, i, SLAB_PREV, SLAB_NEXT);
  }

  /** `slab_list_add` writes the links in another order than `buddy_list_add`, to the same effect. */
  lemma SlabPushMem(m: Memory, head: Word, p: nat)
    ensures var m1 := m[Loc(p, SLAB_NEXT) := head][Loc(p, SLAB_PREV) := Null];
            (if head.Ptr? then m1[Loc(head.loc.page, SLAB_PREV) := Node(p)] else m1) == PushMem(m, head, p, SLAB_PREV, SLAB_NEXT)
  {
    assert m[Loc(p, SLAB_NEXT) := head][Loc(p, SLAB_PREV) := Null] == m[Loc(p, SLAB_PREV) := Null][Loc(p, SLAB_NEXT) := head];
  }

  lemma SlabUnlinkMem(m: Memory, head: Word, p: nat)
    ensures var next, prev := Load(m, Loc(p, SLAB_NEXT)), Load(m, Loc(p, SLAB_PREV));
            && UnlinkHead(m, head, p, SLAB_PREV, SLAB_NEXT) == (if prev.Ptr? then head else next)
            && var m1 := if next.Ptr? then m[Loc(next.loc.page, SLAB_PREV) := prev] else m;
               (if prev.Ptr? then m1[Loc(prev.loc.page, SLAB_NEXT) := next] else m1) == UnlinkMem(m, p, SLAB_PREV, SLAB_NEXT)
  {
    var next, prev := Load(m, Loc(p, SLAB_NEXT)), Load(m, Loc(p, SLAB_PREV));
    if next.Ptr? && prev.Ptr? {
      var a, b := Loc(next.loc.page, SLAB_PREV), Loc(prev.loc.page, SLAB_NEXT);
      assert m[a := prev][b := next] == m[b := next][a := prev];
    }
  }

  lemma PushWithin(lists: seq<seq<nat>>, p: nat, k: nat, slabs: map<nat, Slab>)
    requires k < |lists| && Within(lists, slabs) && p in slabs
    ensures Within(Push(lists, p, k), slabs)
  {
    forall q | InSome(Push(lists, p, k), q)
      ensures q in slabs
    {
      PushInSome(lists, p, k, q);
    }
  }

  lemma UnlinkWithin(lists: seq<seq<nat>>, p: nat, k: nat, slabs: map<nat, Slab>)
    requires NoCommon(lists) && k < |lists| && p in lists[k] && Distinct(lists[k]) && Within(lists, slabs)
    ensures Within(Unlink(lists, p, k), slabs)
  {
    forall q | InSome(Unlink(lists, p, k), q)
      ensures q in slabs
    {
      UnlinkInSome(lists, p, k, q);
    }
  }

  /** Changing only link words of slab pages. */
  lemma SlabLinkFrame(m: Memory, m': Memory, areas: seq<Word>, meta: seq<PageMeta>, h: Heap)
    requires BuddyMem(m, areas, meta, h) && Headers(m, h.slabs)
    requires forall x: Loc :: x.page !in h.slabs || (x.off != SLAB_PREV && x.off != SLAB_NEXT) ==> Load(m', x) == Load(m, x)
    ensures BuddyMem(m', areas, meta, h) && Headers(m', h.slabs)
  {
    hide Load, HeaderOK;
    BuddyMemFrame(m, m', areas, meta, h);
    forall q | q in h.slabs
      ensures HeaderOK(m', q, h.slabs[q])
    {
      HeaderFrame(m, m', q, h.slabs[q]);
    }
  }

  // ---------- slab pages as a whole ----------

  /** Buddy operations leave the pages of used blocks, and with them all slabs, alone. */
  lemma SlabPartsFrame(m: Memory, m': Memory, heads: seq<Word>, lists: seq<seq<nat>>, slabs: map<nat, Slab>, used: map<nat, nat>)
    requires Lists(m, heads, lists, SLAB_PREV, SLAB_NEXT) && Headers(m, slabs) && Within(lists, slabs)
    requires SameOn(m, m', used) && forall p :: p in slabs ==> p in used
    ensures Lists(m', heads, lists, SLAB_PREV, SLAB_NEXT) && Headers(m', slabs)
  {
    hide Load, HeaderOK, InSome;
    forall p: nat | InSome(lists, p)
      ensures Load(m', Loc(p, SLAB_PREV)) == Load(m, Loc(p, SLAB_PREV)) && Load(m', Loc(p, SLAB_NEXT)) == Load(m, Loc(p, SLAB_NEXT))
    {
      assert p in slabs;
    }
    ListsFrame(m, m', heads, lists, SLAB_PREV, SLAB_NEXT);
    forall q | q in slabs
      ensures HeaderOK(m', q, slabs[q])
    {
      HeaderFrame(m, m', q, slabs[q]);
    }
  }

  /** Rewriting header and chain of one slab page, links aside. */
  lemma SlabPageChanged(m: Memory, m': Memory, areas: seq<Word>, meta: seq<PageMeta>, heads: seq<Word>, lists: seq<seq<nat>>, h: Heap, p: nat, s: Slab)
    requires BuddyMem(m, areas, meta, h) && Lists(m, heads, lists, SLAB_PREV, SLAB_NEXT) && Headers(m, h.slabs) && Within(lists, h.slabs)
    requires p in h.slabs && OnPage(m, m', p) && HeaderOK(m', p, s) && SameLinks(m, m', p)
    ensures var h' := h.(slabs := h.slabs[p := s]);
            && BuddyMem(m', areas, meta, h') && Lists(m', heads, lists, SLAB_PREV, SLAB_NEXT)
            && Headers(m', h'.slabs) && Within(lists, h'.slabs)
  {
    hide Load, HeaderOK, Lists, InSome;
    BuddyMemFrame(m, m', areas, meta, h);
    ListsFrame(m, m', heads, lists, SLAB_PREV, SLAB_NEXT);
    HeadersFrame(m, m', h.slabs, p);
  }

  /** A page fresh from the buddy allocator becomes a slab page in no list. */
  lemma NewSlabLayout(m: Memory, m': Memory, areas: seq<Word>, meta: seq<PageMeta>, heads: seq<Word>, lists: seq<seq<nat>>, h: Heap, p: nat, s: Slab)
    requires BuddyMem(m, areas, meta, h) && Lists(m, heads, lists, SLAB_PREV, SLAB_NEXT) && Headers(m, h.slabs) && Within(lists, h.slabs)
    requires p !in h.slabs && p in h.buddy.used && OnPage(m, m', p) && HeaderOK(m', p, s)
    ensures p < TOTAL_PAGES && !InSome(lists, p)
    ensures var h' := h.(slabs := h.slabs[p := s]);
            && BuddyMem(m', areas, meta[p := meta[p].(isSlab := true)], h') && Lists(m', heads, lists, SLAB_PREV, SLAB_NEXT)
            && Headers(m', h'.slabs) && Within(lists, h'.slabs)
  {
    MarkSlab(meta, h.buddy, h.slabs, p, s);
    hide Load, HeaderOK, Lists, InSome, MetaOK;
    BuddyMemFrame(m, m', areas, meta, h);
    ListsFrame(m, m', heads, lists, SLAB_PREV, SLAB_NEXT);
    HeadersFrame(m, m', h.slabs, p);
  }

  /** A slab page that is in no list stops being one. */
  lemma DropSlabLayout(m: Memory, areas: seq<Word>, meta: seq<PageMeta>, lists: seq<seq<nat>>, h: Heap, p: nat)
    requires BuddyMem(m, areas, meta, h) && Headers(m, h.slabs) && Within(lists, h.slabs) && p in h.slabs && !InSome(lists, p)
    ensures p < TOTAL_PAGES
    ensures var h' := h.(slabs := h.slabs - {p});
            && BuddyMem(m, areas, meta[p := meta[p].(isSlab := false)], h') && Headers(m, h'.slabs) && Within(lists, h'.slabs)
  {
    UnmarkSlab(meta, h.buddy, h.slabs, p);
    hide Load, HeaderOK, Lists, InSome, MetaOK;
  }

  lemma SlotStep(c: nat, n: nat)
    requires c < NUM_CACHES
    ensures SlotOffset(c, n + 1) == SlotOffset(c, n) + ObjSize(c)
    ensures SlotOffset(c, n) + ObjSize(c) <= PAGE_SIZE <==> n < Capacity(c)
    ensures SlotOffset(c, 0) == HEADER
  {
    var z, k := ObjSize(c), Capacity(c);
    assert (n + 1) * z == n * z + z;
    if n < k {
      SlotFits(c, n);
    } else {
      var r := (PAGE_SIZE - HEADER) % z;
      assert PAGE_SIZE - HEADER == z * k + r;
      if k < n { Gap(z, k, n); }
    }
  }

  lemma SlabsAreUsed(m: Memory, areas: seq<Word>, meta: seq<PageMeta>, h: Heap)
    requires BuddyMem(m, areas, meta, h)
    ensures forall p :: p in h.slabs ==> p in h.buddy.used
  {
  }

  lemma UsedInRange(m: Memory, areas: seq<Word>, meta: seq<PageMeta>, h: Heap, p: nat)
    requires BuddyMem(m, areas, meta, h) && p in h.buddy.used
    ensures p < TOTAL_PAGES
  {
  }

  lemma HeaderCounts(m: Memory, p: nat, s: Slab)
    requires HeaderOK(m, p, s)
    ensures Load(m, Loc(p, SLAB_COUNTS)) == Counts(|s.chain|, Capacity(s.cls)) && Load(m, Loc(p, SLAB_CACHE)) == Cache(s.cls)
    ensures Load(m, Loc(p, SLAB_FREE_LIST)) == ChainWord(p, s, 0)
  {
  }

  lemma SlabHeadOf(m: Memory, heads: seq<Word>, lists: seq<seq<nat>>, k: nat)
    requires Lists(m, heads, lists, SLAB_PREV, SLAB_NEXT) && k < |lists|
    ensures |heads| == |lists| && (heads[k] == Null <==> lists[k] == [])
    ensures lists[k] != [] ==> heads[k] == Node(lists[k][0]) && lists[k][0] in lists[k]
  {
  }

  /** The slab lists of a heap hold its slab pages only, and share none. */
  lemma SlabListsWithin(h: Heap)
    requires Core(h)
    ensures |h.partial + h.full| == 2 * NUM_CACHES && Within(h.partial + h.full, h.slabs)
  {
    forall q, k | 0 <= k < 2 * NUM_CACHES && q in (h.partial + h.full)[k]
      ensures q in h.slabs
    {
      if k >= NUM_CACHES {
        assert q in h.full[k - NUM_CACHES];
      }
    }
  }

  lemma PushPartial(partial: seq<seq<nat>>, full: seq<seq<nat>>, c: nat, p: nat)
    requires |partial| == |full| == NUM_CACHES && c < NUM_CACHES && partial[c] == []
    ensures Push(partial + full, p, c) == partial[c := [p]] + full
  {
    assert [p] + partial[c] == [p];
  }

  /** Removing the head of a partial list and pushing it on the full list. */
  lemma MoveToFull(partial: seq<seq<nat>>, full: seq<seq<nat>>, c: nat, p: nat)
    requires |partial| == |full| == NUM_CACHES && c < NUM_CACHES && partial[c] != [] && partial[c][0] == p
    ensures Push(Unlink(partial + full, p, c), p, NUM_CACHES + c) == partial[c := partial[c][1..]] + full[c := [p] + full[c]]
  {
  }

  /** The layout of blocks and metadata does not depend on the slab lists or on what is live. */
  lemma BuddyMemOf(m: Memory, areas: seq<Word>, meta: seq<PageMeta>, h: Heap, h': Heap)
    requires h'.buddy == h.buddy && h'.slabs == h.slabs
    ensures BuddyMem(m, areas, meta, h') <==> BuddyMem(m, areas, meta, h)
  {
  }

  lemma HeaderOf(m: Memory, slabs: map<nat, Slab>, p: nat)
    requires Headers(m, slabs) && p in slabs
    ensures HeaderOK(m, p, slabs[p])
  {
  }

  lemma ReturnMemIs(m: Memory, p: nat, x: Loc)
    requires x.page == p && x.off >= HEADER && Load(m, Loc(p, SLAB_COUNTS)).Counts?
    ensures var n := Load(m, Loc(p, SLAB_COUNTS));
            && ReturnMem(m, p, x, n.free + 1, n.total) ==
               m[x := Load(m, Loc(p, SLAB_FREE_LIST))][Loc(p, SLAB_FREE_LIST) := Ptr(x)][Loc(p, SLAB_COUNTS) := Counts(n.free + 1, n.total)]
  {
  }

  /** Where a slab is listed, and that the slot being freed is not in its chain. */
  lemma SlabFreeFacts(h: Heap, o: Obj)
    requires HeapInv(h) && o in h.live && o.Slot? && o.page in h.slabs
    ensures var s := h.slabs[o.page];
            && o.index !in s.chain && s.cls < NUM_CACHES && |s.chain| + 1 <= Capacity(s.cls) && BuddyModel.Inv(h.buddy)
            && o.page in (h.partial + h.full)[if s.chain == [] then NUM_CACHES + s.cls else s.cls]
  {
    LiveIsObject(h, o);
  }

  /** The first list move of slab_free, on the combined sequence of lists. */
  function ReopenedLists(lists: seq<seq<nat>>, p: nat, c: nat, free: nat): seq<seq<nat>>
    requires |lists| == 2 * NUM_CACHES && c < NUM_CACHES
  {
    if free == 0 then Push(Unlink(lists, p, NUM_CACHES + c), p, c) else lists
  }

  /** The lists slab_free leaves. */
  lemma SlabFreeLists(h: Heap, o: Obj)
    requires HeapInv(h) && o in h.live && o.Slot? && o.page in h.slabs
    ensures var r, s := HeapModel.SlabFree(h, o), h.slabs[o.page];
            && |h.partial + h.full| == 2 * NUM_CACHES && s.cls < NUM_CACHES
            && var l := ReopenedLists(h.partial + h.full, o.page, s.cls, |s.chain|);
               r.partial + r.full == if |s.chain| + 1 == Capacity(s.cls) then Unlink(l, o.page, s.cls) else l
  {
    SlabFreeFacts(h, o);
    ReopenCombined(h, o.page);
    var s, q := h.slabs[o.page], Reopen(h, o.page);
    assert q.slabs == h.slabs && q.buddy == h.buddy;
    UnlinkCombined(q.partial, q.full, o.page, s.cls);
    hide HeapInv, Reopen, Capacity, Remove, ReopenedLists, Free;
  }

  lemma UnlinkCombined(partial: seq<seq<nat>>, full: seq<seq<nat>>, p: nat, c: nat)
    requires |partial| == |full| == NUM_CACHES && c < NUM_CACHES
    ensures Unlink(partial + full, p, c) == partial[c := Remove(partial[c], p)] + full
  {
  }

  lemma ReopenCombined(h: Heap, p: nat)
    requires p in h.slabs && h.slabs[p].cls < |h.partial| == |h.full| == NUM_CACHES
    ensures var r := Reopen(h, p);
            |r.partial| == |r.full| == NUM_CACHES && r.partial + r.full == ReopenedLists(h.partial + h.full, p, h.slabs[p].cls, |h.slabs[p].chain|)
  {
  }

  /** The slabs and blocks slab_free leaves. */
  lemma SlabFreeState(h: Heap, o: Obj)
    requires HeapInv(h) && o in h.live && o.Slot? && o.page in h.slabs
    ensures h.buddy.used[o.page] <= MAX_ORDERS && |h.buddy.lists| == MAX_ORDERS + 1
    ensures var r, s := HeapModel.SlabFree(h, o), h.slabs[o.page];
            var slabs := h.slabs[o.page := s.(chain := [o.index] + s.chain)];
            if |s.chain| + 1 == Capacity(s.cls) then r.slabs == slabs - {o.page} && r.buddy == Free(h.buddy, o.page)
            else r.slabs == slabs && r.buddy == h.buddy
  {
    SlabFreeFacts(h, o);
    FreeKeepsInv(h.buddy, o.page);
    assert |h.buddy.lists| == MAX_ORDERS + 1;
    var s := h.slabs[o.page];
    assert h.slabs[o.page := s.(chain := [o.index] + s.chain)] - {o.page} == h.slabs - {o.page};
    hide BuddyModel.Inv, LiveOK, ListsOK, Free;
  }

  lemma SlabFreeInv(h: Heap, o: Obj)
    requires HeapInv(h) && o in h.live && o.Slot? && o.page in h.slabs
    ensures HeapInv(HeapModel.SlabFree(h, o)) && Core(h)
  {
    KfreeKeepsInv(h, o);
  }

  // ---------- allocations as callers see them ----------

  /** Where a live object starts. */
  ghost function LocOf(h: Heap, o: Obj): Loc
    requires o.Slot? ==> o.page in h.slabs
  {
    match o
    case Large(p) => Loc(p, 0)
    case Slot(p, j) => SlotLoc(p, h.slabs[p].cls, j)
  }

  /** The word at `x` lies inside the bytes granted to the live object `o`. */
  ghost predicate Owns(h: Heap, o: Obj, x: Loc) {
    && IsObject(h.buddy.used, h.slabs, o) && 0 <= x.off && x.off % 8 == 0 && x.off + 8 <= PAGE_SIZE
    && match o
       case Large(p) => p <= x.page < p + Pow2(h.buddy.used[p])
       case Slot(p, j) => x.page == p && SlotOffset(h.slabs[p].cls, j) <= x.off && x.off + 8 <= SlotOffset(h.slabs[p].cls, j) + ObjSize(h.slabs[p].cls)
  }

  /** The page of an owned word holds no node of a free block, and no slab header unless the object is a slot. */
  lemma OwnedPage(h: Heap, o: Obj, x: Loc)
    requires Core(h) && Owns(h, o, x)
    ensures 0 <= x.page && !InSome(h.buddy.lists, x.page) && (o.Large? ==> x.page !in h.slabs)
  {
    hide ListsOK, LiveOK;
    var b := Block(o.page, h.buddy.used[o.page]);
    var free, used := FreeSet(h.buddy.lists), UsedSet(h.buddy.used);
    assert b in used && b in free + used && Contains(b, x.page) by { assert Pow2(0) == 1; }
    forall k, y | 0 <= k < |h.buddy.lists| && y in h.buddy.lists[k]
      ensures y != x.page
    {
      assert Block(y, k) in free;
      assert Block(y, k) in free + used && Apart(b, Block(y, k));
    }
    forall q | q in h.slabs && q != o.page
      ensures q != x.page
    {
      assert Block(q, 0) in used && Block(q, 0) in free + used;
      assert Apart(b, Block(q, 0));
    }
  }

  /** No word the allocator reads in a slab header or chain is owned by a live object of that slab. */
  lemma OwnedNotHeader(m: Memory, h: Heap, o: Obj, x: Loc, w: Word)
    requires Core(h) && Owns(h, o, x) && o.Slot? && HeaderOK(m, o.page, h.slabs[o.page])
    ensures HeaderOK(m[x := w], o.page, h.slabs[o.page])
  {
    hide BuddyModel.Inv, ListsOK, LiveOK, SlotOffset, ChainWord;
    var s := h.slabs[o.page];
    forall i | 0 <= i < |s.chain|
      ensures Load(m[x := w], SlotLoc(o.page, s.cls, s.chain[i])) == ChainWord(o.page, s, i + 1)
    {
      assert s.chain[i] in s.chain;
      SlotsApart(s.cls, s.chain[i], o.index);
      assert Load(m, SlotLoc(o.page, s.cls, s.chain[i])) == ChainWord(o.page, s, i + 1);
    }
  }

  /** Whatever a caller stores in its own live memory, the layout of the heap stands. */
  lemma ClientWriteLayout(m: Memory, areas: seq<Word>, meta: seq<PageMeta>, heads: seq<Word>, h: Heap, o: Obj, x: Loc, w: Word)
    requires Core(h) && BuddyMem(m, areas, meta, h) && SlabMem(m, heads, h) && Owns(h, o, x)
    ensures BuddyMem(m[x := w], areas, meta, h) && SlabMem(m[x := w], heads, h)
  {
    var m' := m[x := w];
    OwnedPage(h, o, x);
    SlabListsWithin(h);
    assert OnPage(m, m', x.page);
    if o.Slot? { OwnedNotHeader(m, h, o, x, w); }
    ClientBuddyFrame(m, m', areas, meta, h, x.page);
    hide Core, HeaderOK, Owns, InSome;
    assert o.Slot? ==> x.off >= HEADER;
    ClientSlabFrame(m, m', heads, h, o, x);
  }

  lemma ClientBuddyFrame(m: Memory, m': Memory, areas: seq<Word>, meta: seq<PageMeta>, h: Heap, p: nat)
    requires BuddyMem(m, areas, meta, h) && OnPage(m, m', p) && !InSome(h.buddy.lists, p)
    ensures BuddyMem(m', areas, meta, h)
  {
    hide Load, MetaOK, InSome;
    ListsFrame(m, m', areas, h.buddy.lists, BLOCK_PREV, BLOCK_NEXT);
  }

  lemma ClientSlabFrame(m: Memory, m': Memory, heads: seq<Word>, h: Heap, o: Obj, x: Loc)
    requires 0 <= x.page && SlabMem(m, heads, h) && Within(h.partial + h.full, h.slabs) && OnPage(m, m', x.page)
    requires forall y: Loc :: y != x ==> Load(m', y) == Load(m, y)
    requires o.Large? ==> x.page !in h.slabs
    requires o.Slot? ==> x.page == o.page && x.off >= HEADER && o.page in h.slabs && HeaderOK(m', o.page, h.slabs[o.page])
    ensures SlabMem(m', heads, h)
  {
    hide Load, HeaderOK, InSome;
    HeadersFrame(m, m', h.slabs, x.page);
    ListsFrame(m, m', heads, h.partial + h.full, SLAB_PREV, SLAB_NEXT);
  }

  /** A newly allocated large block: the slabs are as they were. */
  lemma LargeLayout(m: Memory, m': Memory, areas: seq<Word>, meta: seq<PageMeta>, heads: seq<Word>, h: Heap, h': Heap)
    requires Core(h) && SlabMem(m, heads, h) && SameOn(m, m', h.buddy.used) && BuddyMem(m', areas, meta, h.(buddy := h'.buddy))
    requires h'.slabs == h.slabs && h'.partial == h.partial && h'.full == h.full
    ensures BuddyMem(m', areas, meta, h') && SlabMem(m', heads, h')
  {
    hide Lists, Headers, Within, MetaOK, SameOn;
    SlabListsWithin(h);
    assert forall p :: p in h.slabs ==> p in h.buddy.used;
    SlabPartsFrame(m, m', heads, h.partial + h.full, h.slabs, h.buddy.used);
  }

  /** Freeing a large block: the slabs are as they were. */
  lemma LargeFreeLayout(m: Memory, m': Memory, areas: seq<Word>, meta: seq<PageMeta>, heads: seq<Word>, h: Heap, h': Heap)
    requires Core(h) && SlabMem(m, heads, h) && SameOn(m, m', h'.buddy.used) && BuddyMem(m', areas, meta, h.(buddy := h'.buddy))
    requires h'.slabs == h.slabs && h'.partial == h.partial && h'.full == h.full
    ensures BuddyMem(m', areas, meta, h') && SlabMem(m', heads, h')
  {
    hide Lists, Headers, Within, MetaOK, SameOn;
    SlabListsWithin(h);
    assert forall p :: p in h.slabs ==> p in h'.buddy.used;
    SlabPartsFrame(m, m', heads, h.partial + h.full, h.slabs, h'.buddy.used);
  }

  /** The metadata bit kfree tests tells exactly which layer produced the pointer. */
  lemma SlabBit(m: Memory, areas: seq<Word>, meta: seq<PageMeta>, h: Heap, o: Obj)
    requires Core(h) && BuddyMem(m, areas, meta, h) && o in h.live
    ensures o.page < TOTAL_PAGES && o.page in h.buddy.used && (meta[o.page].isSlab <==> o.Slot?) && (o.Slot? <==> o.page in h.slabs)
  {
    LiveIsObject(h, o);
  }

  /** The heap before its one initial block is linked. */
  function EmptyHeap(): Heap {
    InitHeap().(buddy := State(seq(MAX_ORDERS + 1, _ => []), map[]))
  }

  lemma EmptyLayout(m: Memory, areas: seq<Word>, meta: seq<PageMeta>, heads: seq<Word>)
    requires |areas| == MAX_ORDERS + 1 && (forall i :: 0 <= i < |areas| ==> areas[i] == Null)
    requires |meta| == TOTAL_PAGES && (forall i :: 0 <= i < |meta| ==> meta[i] == PageMeta(0, false, false))
    requires |heads| == 2 * NUM_CACHES && (forall i :: 0 <= i < |heads| ==> heads[i] == Null)
    ensures BuddyMem(m, areas, meta, EmptyHeap()) && SlabMem(m, heads, InitHeap())
  {
  }

  lemma InitLayout(m: Memory, heads: seq<Word>)
    requires |heads| == 2 * NUM_CACHES && (forall i :: 0 <= i < |heads| ==> heads[i] == Null)
    ensures SlabMem(m, heads, InitHeap()) && HeapInv(InitHeap())
    ensures EmptyHeap().(buddy := EmptyHeap().buddy.(lists := Push(EmptyHeap().buddy.lists, 0, MAX_ORDERS))) == InitHeap()
  {
    InitHeapInv();
    var l := EmptyHeap().buddy.lists;
    var r := Push(l, 0, MAX_ORDERS);
    assert l[MAX_ORDERS] == [] && r[MAX_ORDERS] == [0];
    forall k | 0 <= k < MAX_ORDERS
      ensures r[k] == Init().lists[k]
    {
      assert l[k] == [];
    }
    assert r == Init().lists;
  }
}
