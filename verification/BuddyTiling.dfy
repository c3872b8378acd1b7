/** The shape every buddy state has: free and used blocks tile the heap and no two buddies are both free. */
module BuddyTiling {
  import opened Blocks

  ghost predicate Covered(s: set<Block>, x: int) {
    exists b :: b in s && Contains(b, x)
  }

  ghost predicate Tiles(s: set<Block>) {
    && (forall b :: b in s ==> Placed(b))
    && (forall a, b :: a in s && b in s && a != b ==> Apart(a, b))
    && (forall x: int :: 0 <= x < TOTAL_PAGES ==> Covered(s, x))
  }

  ghost predicate NoBuddies(free: set<Block>) {
    forall b :: b in free && b.order < MAX_ORDERS ==> Buddy(b) !in free
  }

  ghost predicate Canonical(free: set<Block>, used: set<Block>) {
    free !! used && Tiles(free + used) && NoBuddies(free)
  }

  /** No page of the run `b` belongs to a used block. */
  ghost predicate Unallocated(used: set<Block>, b: Block) {
    Placed(b) && forall x :: Contains(b, x) ==> !Covered(used, x)
  }

  /** `b` is unallocated and is not half of a larger unallocated run. */
  ghost predicate Maximal(used: set<Block>, b: Block) {
    Unallocated(used, b) && (b.order == MAX_ORDERS || !Unallocated(used, Parent(b)))
  }

  const WHOLE: Block := Block(0, MAX_ORDERS)

  lemma InitialCanonical()
    ensures Canonical({WHOLE}, {})
  {
    Pow2Values();
    assert {WHOLE} + {} == {WHOLE};
    assert WHOLE in {WHOLE};
  }

  /** Unlinking a free block and handing it out. */
  lemma Take(free: set<Block>, used: set<Block>, b: Block)
    requires Canonical(free, used) && b in free
    ensures Canonical(free - {b}, used + {b})
  {
    assert (free - {b}) + (used + {b}) == free + used;
  }

  lemma InHalf(b: Block, x: int)
    requires 1 <= b.order
    ensures Contains(b, x) <==> Contains(Lower(b), x) || Contains(Upper(b), x)
  {
  }

  lemma ApartFromHalves(b: Block, c: Block)
    requires 1 <= b.order
    ensures Apart(c, b) <==> Apart(c, Lower(b)) && Apart(c, Upper(b)) && !(Lower(b).page + Pow2(b.order - 1) <= c.page && c.page + Pow2(c.order) <= Upper(b).page)
    ensures !Apart(Lower(b), b) && !Apart(Upper(b), b) && Apart(Lower(b), Upper(b)) && Lower(b) != Upper(b)
  {
  }

  /** Refining a tiling by cutting one block in two. */
  lemma CutTile(s: set<Block>, b: Block)
    requires Tiles(s) && b in s && 1 <= b.order
    ensures Lower(b) !in s && Upper(b) !in s && Lower(b) != Upper(b) && Tiles(s - {b} + {Lower(b), Upper(b)})
  {
    hide Placed, Contains, Apart;
    Halves(b);
    var t := s - {b} + {Lower(b), Upper(b)};
    ApartFromHalves(b, b);
    forall c | c in s && c != b
      ensures Apart(c, Lower(b)) && Apart(c, Upper(b)) && Apart(Lower(b), c) && Apart(Upper(b), c)
    {
      ApartFromHalves(b, c);
      ApartSymmetric(c, Lower(b));
      ApartSymmetric(c, Upper(b));
    }
    ApartSymmetric(Lower(b), Upper(b));
    ApartSymmetric(Lower(b), b);
    ApartSymmetric(Upper(b), b);
    CutCovers(s, b);
  }

  lemma ApartSymmetric(a: Block, b: Block)
    ensures Apart(a, b) == Apart(b, a)
  {
  }

  lemma CutCovers(s: set<Block>, b: Block)
    requires Tiles(s) && b in s && 1 <= b.order
    ensures forall x: int :: 0 <= x < TOTAL_PAGES ==> Covered(s - {b} + {Lower(b), Upper(b)}, x)
  {
    hide Placed, Contains, Apart;
    var t := s - {b} + {Lower(b), Upper(b)};
    forall x: int | 0 <= x < TOTAL_PAGES
      ensures Covered(t, x)
    {
      assert Covered(s, x);
      var c :| c in s && Contains(c, x);
      InHalf(b, x);
      assert c == b || c in t;
    }
  }

  /** Coarsening a tiling by joining two halves. */
  lemma JoinTiles(s: set<Block>, p: Block)
    requires Placed(p) && 1 <= p.order && Tiles(s) && Lower(p) in s && Upper(p) in s
    ensures p !in s && Tiles(s - {Lower(p), Upper(p)} + {p})
  {
    hide Placed, Contains;
    var t := s - {Lower(p), Upper(p)} + {p};
    ApartFromHalves(p, p);
    forall c | c in t && c != p
      ensures Apart(c, p) && Apart(p, c)
    {
      assert Apart(c, Lower(p)) && Apart(c, Upper(p));
      ApartFromHalves(p, c);
      ApartSymmetric(c, p);
    }
    JoinCovers(s, p);
  }

  lemma JoinCovers(s: set<Block>, p: Block)
    requires Tiles(s) && 1 <= p.order
    ensures forall x: int :: 0 <= x < TOTAL_PAGES ==> Covered(s - {Lower(p), Upper(p)} + {p}, x)
  {
    hide Placed, Contains, Apart;
    var t := s - {Lower(p), Upper(p)} + {p};
    forall x: int | 0 <= x < TOTAL_PAGES
      ensures Covered(t, x)
    {
      assert Covered(s, x);
      var c :| c in s && Contains(c, x);
      InHalf(p, x);
      assert p in t && (c == Lower(p) || c == Upper(p) || c in t);
    }
  }

  lemma AddWithoutBuddy(free: set<Block>, b: Block)
    requires NoBuddies(free) && (forall f :: f in free ==> Placed(f)) && Placed(b)
    requires b.order == MAX_ORDERS || Buddy(b) !in free
    ensures NoBuddies(free + {b})
  {
    forall c | c in free + {b} && c.order < MAX_ORDERS
      ensures Buddy(c) !in free + {b}
    {
      BuddyHalves(c);
    }
  }

  /** Splitting the block in hand: its upper half becomes free, the lower half stays in hand. */
  lemma Split(free: set<Block>, used: set<Block>, b: Block)
    requires Canonical(free, used) && b in used && 1 <= b.order
    ensures Canonical(free + {Upper(b)}, used - {b} + {Lower(b)})
    ensures Lower(b) !in used && Upper(b) !in used && Upper(b) !in free
  {
    hide Placed, Contains, Apart;
    assert b in free + used;
    CutTile(free + used, b);
    Halves(b);
    assert Lower(b) !in free + used && Upper(b) !in free + used;
    AddWithoutBuddy(free, Upper(b));
    assert (free + {Upper(b)}) + (used - {b} + {Lower(b)}) == free + used - {b} + {Lower(b), Upper(b)};
  }

  /** Merging the block in hand with its free buddy. */
  lemma Merge(free: set<Block>, used: set<Block>, b: Block)
    requires Canonical(free, used) && b in used && b.order < MAX_ORDERS && Buddy(b) in free
    ensures Canonical(free - {Buddy(b)}, used - {b} + {Parent(b)}) && Parent(b) !in used
  {
    hide Placed, Contains, Apart, Buddy, Parent;
    var q, p, s := Buddy(b), Parent(b), free + used;
    assert b in s && q in s;
    BuddyHalves(b);
    assert {b, q} == {Lower(p), Upper(p)};
    assert Lower(p) in {b, q} && Upper(p) in {b, q};
    JoinTiles(s, p);
    assert (free - {q}) + (used - {b} + {p}) == s - {b, q} + {p};
  }

  /** Linking the block in hand once its buddy is not free. */
  lemma Put(free: set<Block>, used: set<Block>, b: Block)
    requires Canonical(free, used) && b in used
    requires b.order == MAX_ORDERS || Buddy(b) !in free
    ensures Canonical(free + {b}, used - {b})
  {
    assert (free + {b}) + (used - {b}) == free + used;
    assert b in free + used;
    AddWithoutBuddy(free, b);
  }

  /** Every page is on exactly one side: free blocks cover exactly the pages no used block covers. */
  lemma FreeOrUsed(free: set<Block>, used: set<Block>, x: int)
    requires Canonical(free, used) && 0 <= x < TOTAL_PAGES
    ensures Covered(free, x) <==> !Covered(used, x)
  {
    assert Covered(free + used, x);
    var b :| b in free + used && Contains(b, x);
    forall f, u | f in free && u in used
      ensures !(Contains(f, x) && Contains(u, x))
    {
      assert f in free + used && u in free + used && f != u;
      assert Apart(f, u);
    }
  }

  /** An aligned run with no allocated page lies inside one free block: merging is complete. */
  lemma {:induction false} RunInsideFreeBlock(free: set<Block>, used: set<Block>, b: Block) returns (f: Block)
    requires Canonical(free, used) && Unallocated(used, b)
    ensures f in free && Inside(b, f) && b.order <= f.order
    decreases b.order
  {
    if b.order == 0 {
      FreeOrUsed(free, used, b.page);
      f :| f in free && Contains(f, b.page);
    } else {
      Halves(b);
      assert forall x :: Contains(Lower(b), x) ==> Contains(b, x);
      assert forall x :: Contains(Upper(b), x) ==> Contains(b, x);
      var l := RunInsideFreeBlock(free, used, Lower(b));
      var h := RunInsideFreeBlock(free, used, Upper(b));
      f := Larger(free, used, b, l, h);
    }
  }

  /** Free blocks that hold two sibling runs: one of them holds the whole parent, for buddies are never both free. */
  lemma Larger(free: set<Block>, used: set<Block>, b: Block, l: Block, h: Block) returns (f: Block)
    requires Canonical(free, used) && Placed(b) && 1 <= b.order
    requires l in free && Inside(Lower(b), l) && b.order - 1 <= l.order
    requires h in free && Inside(Upper(b), h) && b.order - 1 <= h.order
    ensures f in free && Inside(b, f) && b.order <= f.order
  {
    Halves(b);
    HalfInside(b, Lower(b), l);
    HalfInside(b, Upper(b), h);
    assert l in free + used && h in free + used;
    hide Tiles, Buddy, Inside, Pow2;
    f := if b.order <= l.order then l else h;
  }

  lemma HalfInside(b: Block, half: Block, f: Block)
    requires Placed(b) && 1 <= b.order && (half == Lower(b) || half == Upper(b)) && Inside(half, f)
    ensures b.order <= f.order && Placed(f) ==> Inside(b, f)
    ensures f.order == half.order ==> f == half
  {
    if b.order <= f.order && Placed(f) {
      Nested(b, f);
    }
  }

  lemma FreeBlockInsideFreeBlock(free: set<Block>, used: set<Block>, b: Block, f: Block)
    requires Canonical(free, used) && b in free && f in free && Inside(b, f)
    ensures b == f
  {
    assert b in free + used && f in free + used;
    assert !Apart(b, f);
  }

  lemma ChildInsideParent(b: Block)
    requires Placed(b) && b.order < MAX_ORDERS
    ensures Inside(b, Parent(b)) && Placed(Parent(b)) && Parent(b).order == b.order + 1
  {
    BuddyHalves(b);
    assert b in {b, Buddy(b)};
  }

  lemma InsideContains(a: Block, b: Block)
    requires Inside(a, b)
    ensures forall x :: Contains(a, x) ==> Contains(b, x)
  {
  }

  /** A free block's pages are unallocated. */
  lemma FreeIsUnallocated(free: set<Block>, used: set<Block>, b: Block)
    requires Canonical(free, used) && b in free
    ensures Unallocated(used, b)
  {
    assert b in free + used;
    forall x | Contains(b, x)
      ensures !Covered(used, x)
    {
      FreeOrUsed(free, used, x);
    }
  }

  /** Canonical form: the free blocks are exactly the maximal unallocated runs. */
  lemma FreeIffMaximal(free: set<Block>, used: set<Block>, b: Block)
    requires Canonical(free, used)
    ensures b in free <==> Maximal(used, b)
  {
    if b in free {
      FreeIsUnallocated(free, used, b);
      if b.order < MAX_ORDERS && Unallocated(used, Parent(b)) {
        ChildInsideParent(b);
        var f := RunInsideFreeBlock(free, used, Parent(b));
        FreeBlockInsideFreeBlock(free, used, b, f);
      }
    } else if Maximal(used, b) {
      var f := RunInsideFreeBlock(free, used, b);
      FreeIsUnallocated(free, used, f);
      if b.order == f.order {
        SameStart(b, f);
      } else {
        ChildInsideParent(b);
        Nested(Parent(b), f);
        InsideContains(Parent(b), f);
      }
    }
  }

  /** The free set is a function of the set of allocated pages. */
  lemma FreeDetermined(free1: set<Block>, used1: set<Block>, free2: set<Block>, used2: set<Block>)
    requires Canonical(free1, used1) && Canonical(free2, used2)
    requires forall x :: Covered(used1, x) <==> Covered(used2, x)
    ensures free1 == free2
  {
    forall b
      ensures b in free1 <==> b in free2
    {
      FreeIffMaximal(free1, used1, b);
      FreeIffMaximal(free2, used2, b);
      assert Unallocated(used1, b) <==> Unallocated(used2, b);
    }
  }

  ghost function Range(n: nat): set<int> {
    if n == 0 then {} else Range(n - 1) + {n - 1}
  }

  lemma {:induction false} RangeElements(n: nat)
    ensures |Range(n)| == n && forall x: int :: x in Range(n) <==> 0 <= x < n
  {
    if n > 0 { RangeElements(n - 1); }
  }

  ghost function Pages(s: set<Block>): set<int> {
    set x | x in Range(TOTAL_PAGES) && Covered(s, x)
  }

  /** Free pages and used pages always add up to the whole heap. */
  lemma PagesConserved(free: set<Block>, used: set<Block>)
    requires Canonical(free, used)
    ensures |Pages(free)| + |Pages(used)| == TOTAL_PAGES
  {
    RangeElements(TOTAL_PAGES);
    forall x | x in Range(TOTAL_PAGES)
      ensures x in Pages(free) <==> x !in Pages(used)
    {
      FreeOrUsed(free, used, x);
    }
    assert Pages(free) !! Pages(used) && Pages(free) + Pages(used) == Range(TOTAL_PAGES);
  }
}
