/** The linked lists behind vmalloc and user stacks: descriptors in memory, relinked in place. */
module RegionLists {
  import opened Basics
  import opened Regions
  import opened Sequences

  // ---------- descriptors in memory ----------

  /** vm_info_t and us_info_t. */
  datatype Info = Info(base: nat, size: nat, next: Pointer, prev: Pointer)

  type Memory = map<nat, Info>

  function NextOf(ids: seq<nat>, i: nat): Pointer
    requires i < |ids|
  {
    if i + 1 < |ids| then To(ids[i + 1]) else Null
  }

  function PrevOf(ids: seq<nat>, i: nat): Pointer
    requires i < |ids|
  {
    if i > 0 then To(ids[i - 1]) else Null
  }

  /** The descriptors `ids` are linked in this order, both ways. */
  ghost predicate Linked(m: Memory, ids: seq<nat>) {
    forall i {:trigger ids[i]} :: 0 <= i < |ids| ==> NodeOK(m, ids, i)
  }

  ghost predicate NodeOK(m: Memory, ids: seq<nat>, i: nat)
    requires i < |ids|
  {
    ids[i] in m && m[ids[i]].next == NextOf(ids, i) && m[ids[i]].prev == PrevOf(ids, i)
  }

  /** What the descriptors hold, in list order. */
  ghost function Contents(m: Memory, ids: seq<nat>): (r: seq<Region>)
    requires forall i :: 0 <= i < |ids| ==> ids[i] in m
    ensures |r| == |ids| && forall i :: 0 <= i < |ids| ==> r[i] == Region(m[ids[i]].base, m[ids[i]].size)
  {
    seq(|ids|, i requires 0 <= i < |ids| && ids[i] in m => Region(m[ids[i]].base, m[ids[i]].size))
  }

  // ---------- linking behind a neighbour ----------

  /** The four link writes that put x between position k and its successor. */
  function LinkMem(m: Memory, ids: seq<nat>, k: nat, x: nat, base: nat): Memory
    requires k < |ids| && x in m && ids[k] in m && (k + 1 < |ids| ==> ids[k + 1] in m)
  {
    var m1 := m[x := m[x].(base := base, next := NextOf(ids, k), prev := To(ids[k]))];
    var m2 := m1[ids[k] := m1[ids[k]].(next := To(x))];
    if k + 1 < |ids| then m2[ids[k + 1] := m2[ids[k + 1]].(prev := To(x))] else m2
  }

  /** Descriptor i after x was linked behind position k. */
  function LinkInfo(m: Memory, ids: seq<nat>, k: nat, x: nat, i: nat): Info
    requires i < |ids| && ids[i] in m
  {
    Info(m[ids[i]].base, m[ids[i]].size, if i == k then To(x) else NextOf(ids, i), if i == k + 1 then To(x) else PrevOf(ids, i))
  }

  lemma LinkLoads(m: Memory, ids: seq<nat>, k: nat, x: nat, base: nat)
    requires k < |ids| && x in m && x !in ids && Distinct(ids) && Linked(m, ids)
    ensures var m' := LinkMem(m, ids, k, x, base);
            && m'.Keys == m.Keys && m'[x] == Info(base, m[x].size, NextOf(ids, k), To(ids[k]))
            && forall i :: 0 <= i < |ids| ==> m'[ids[i]] == LinkInfo(m, ids, k, x, i)
  {
    var m' := LinkMem(m, ids, k, x, base);
    assert NodeOK(m, ids, k);
    if k + 1 < |ids| { assert NodeOK(m, ids, k + 1); }
    assert x != ids[k] && (k + 1 < |ids| ==> x != ids[k + 1]);
    hide Distinct, Linked;
    forall i | 0 <= i < |ids|
      ensures m'[ids[i]] == LinkInfo(m, ids, k, x, i)
    {
      assert ids[i] in ids;
      assert NodeOK(m, ids, i) by { LinkedNode(m, ids, i); }
      assert i != k ==> ids[i] != ids[k];
      assert k + 1 < |ids| && i != k + 1 ==> ids[i] != ids[k + 1];
    }
  }

  lemma LinkedNode(m: Memory, ids: seq<nat>, i: nat)
    requires Linked(m, ids) && i < |ids|
    ensures NodeOK(m, ids, i)
  {
  }

  lemma LinkedFields(m: Memory, ids: seq<nat>, i: nat)
    requires Linked(m, ids) && i < |ids|
    ensures ids[i] in m && m[ids[i]].next == NextOf(ids, i) && m[ids[i]].prev == PrevOf(ids, i)
  {
    LinkedNode(m, ids, i);
  }

  /** One turn of the search. */
  lemma StopHere(d: Direction, l: seq<Region>, size: nat, k: nat)
    requires k < |l|
    ensures Stop(d, l, size, k) == if k + 1 == |l| || GapFits(d, l[k], size, l[k + 1]) then k else Stop(d, l, size, k + 1)
  {
  }

  /** Neighbours in the longer list. */
  lemma LinkNeighbours(ids: seq<nat>, k: nat, x: nat, i: nat)
    requires k < |ids| && i <= |ids|
    ensures var r := Inserted(ids, k, x);
            && NextOf(r, i) == (if i < k then NextOf(ids, i) else if i == k then To(x) else if i == k + 1 then NextOf(ids, k) else NextOf(ids, i - 1))
            && PrevOf(r, i) == (if i <= k then PrevOf(ids, i) else if i == k + 1 then To(ids[k]) else if i == k + 2 then To(x) else PrevOf(ids, i - 1))
            && r[i] == (if i <= k then ids[i] else if i == k + 1 then x else ids[i - 1])
  {
  }

  lemma LinkLinked(m: Memory, ids: seq<nat>, k: nat, x: nat, base: nat)
    requires k < |ids| && x in m && x !in ids && Distinct(ids) && Linked(m, ids)
    ensures ids[k] in m && (k + 1 < |ids| ==> ids[k + 1] in m)
    ensures Linked(LinkMem(m, ids, k, x, base), Inserted(ids, k, x)) && Distinct(Inserted(ids, k, x))
  {
    LinkLoads(m, ids, k, x, base);
    InsertedDistinct(ids, k, x);
    var m', r := LinkMem(m, ids, k, x, base), Inserted(ids, k, x);
    hide LinkMem, Inserted, Distinct, NextOf, PrevOf;
    forall i: nat | i < |r|
      ensures NodeOK(m', r, i)
    {
      LinkNeighbours(ids, k, x, i);
    }
  }

  lemma AllPresent(m: Memory, ids: seq<nat>)
    requires Linked(m, ids)
    ensures forall i :: 0 <= i < |ids| ==> ids[i] in m
  {
    forall i: nat | i < |ids|
      ensures ids[i] in m
    {
      LinkedNode(m, ids, i);
    }
  }

  lemma LinkContents(m: Memory, ids: seq<nat>, k: nat, x: nat, base: nat)
    requires k < |ids| && x in m && x !in ids && Distinct(ids) && Linked(m, ids)
    ensures ids[k] in m && (k + 1 < |ids| ==> ids[k + 1] in m)
    ensures var m', r := LinkMem(m, ids, k, x, base), Inserted(ids, k, x);
            && (forall i :: 0 <= i < |ids| ==> ids[i] in m) && (forall i :: 0 <= i < |r| ==> r[i] in m')
            && Contents(m', r) == Inserted(Contents(m, ids), k, Region(base, m[x].size))
  {
    hide LinkMem, Inserted, Distinct, NextOf, PrevOf, Contents, Linked, NodeOK;
    LinkLoads(m, ids, k, x, base);
    LinkLinked(m, ids, k, x, base);
    var m', r := LinkMem(m, ids, k, x, base), Inserted(ids, k, x);
    AllPresent(m, ids);
    AllPresent(m', r);
    InsertedElements(ids, k, x);
    InsertedRegion(Contents(m, ids), k, Region(base, m[x].size), 0);
    forall i: nat | i < |r|
      ensures Contents(m', r)[i] == Inserted(Contents(m, ids), k, Region(base, m[x].size))[i]
    {
      LinkNeighbours(ids, k, x, i);
      InsertedRegion(Contents(m, ids), k, Region(base, m[x].size), i);
    }
  }

  lemma InsertedRegion(l: seq<Region>, k: nat, r: Region, i: nat)
    requires k < |l| && i <= |l|
    ensures |Inserted(l, k, r)| == |l| + 1
    ensures Inserted(l, k, r)[i] == if i <= k then l[i] else if i == k + 1 then r else l[i - 1]
  {
  }

  // ---------- unlinking ----------

  /** The writes of the removal: neighbours are joined, the descriptor's own links are cleared. */
  function UnlinkMem(m: Memory, x: nat): Memory
    requires x in m && (m[x].next.To? ==> m[x].next.id in m) && (m[x].prev.To? ==> m[x].prev.id in m)
  {
    var next, prev := m[x].next, m[x].prev;
    var m1 := if next.To? then m[next.id := m[next.id].(prev := prev)] else m;
    var m2 := if prev.To? then m1[prev.id := m1[prev.id].(next := next)] else m1;
    m2[x := m2[x].(next := Null, prev := Null)]
  }

  /** Descriptor i after the one at position k was taken out. */
  function UnlinkInfo(m: Memory, ids: seq<nat>, k: nat, i: nat): Info
    requires i < |ids| && k < |ids| && ids[i] in m
  {
    Info(m[ids[i]].base, m[ids[i]].size, if i + 1 == k then NextOf(ids, k) else NextOf(ids, i), if i == k + 1 then PrevOf(ids, k) else PrevOf(ids, i))
  }

  lemma UnlinkLoads(m: Memory, ids: seq<nat>, k: nat)
    requires k < |ids| && Distinct(ids) && Linked(m, ids)
    ensures NodeOK(m, ids, k) && (k + 1 < |ids| ==> ids[k + 1] in m) && (k > 0 ==> ids[k - 1] in m)
    ensures var m' := UnlinkMem(m, ids[k]);
            && m'.Keys == m.Keys
            && forall i :: 0 <= i < |ids| && i != k ==> m'[ids[i]] == UnlinkInfo(m, ids, k, i)
  {
    assert NodeOK(m, ids, k);
    if k + 1 < |ids| { assert NodeOK(m, ids, k + 1); }
    if k > 0 { assert NodeOK(m, ids, k - 1); }
    var m' := UnlinkMem(m, ids[k]);
    hide Distinct, Linked;
    forall i | 0 <= i < |ids| && i != k
      ensures m'[ids[i]] == UnlinkInfo(m, ids, k, i)
    {
      LinkedNode(m, ids, i);
      assert ids[i] != ids[k];
      assert k + 1 < |ids| && i != k + 1 ==> ids[i] != ids[k + 1];
      assert k > 0 && i != k - 1 ==> ids[i] != ids[k - 1];
    }
  }

  lemma UnlinkNeighbours(ids: seq<nat>, k: nat, j: nat)
    requires k < |ids| && j + 1 < |ids|
    ensures var r, o := Removed(ids, k), if j < k then j else j + 1;
            && r[j] == ids[o]
            && NextOf(r, j) == (if o + 1 == k then NextOf(ids, k) else NextOf(ids, o))
            && PrevOf(r, j) == (if o == k + 1 then PrevOf(ids, k) else PrevOf(ids, o))
  {
  }

  lemma UnlinkLinked(m: Memory, ids: seq<nat>, k: nat)
    requires k < |ids| && Distinct(ids) && Linked(m, ids)
    ensures NodeOK(m, ids, k) && (k + 1 < |ids| ==> ids[k + 1] in m) && (k > 0 ==> ids[k - 1] in m)
    ensures Linked(UnlinkMem(m, ids[k]), Removed(ids, k)) && Distinct(Removed(ids, k))
    ensures HeadOf(Removed(ids, k)) == if k == 0 then NextOf(ids, 0) else HeadOf(ids)
  {
    UnlinkLoads(m, ids, k);
    UnlinkHead(ids, k);
    var m', r := UnlinkMem(m, ids[k]), Removed(ids, k);
    RemovedDistinct(ids, k);
    hide UnlinkMem, Removed, Distinct, NextOf, PrevOf, HeadOf;
    forall i: nat | i < |r|
      ensures NodeOK(m', r, i)
    {
      UnlinkNeighbours(ids, k, i);
    }
  }

  lemma UnlinkContents(m: Memory, ids: seq<nat>, k: nat)
    requires k < |ids| && Distinct(ids) && Linked(m, ids)
    ensures NodeOK(m, ids, k) && (k + 1 < |ids| ==> ids[k + 1] in m) && (k > 0 ==> ids[k - 1] in m)
    ensures var m', r := UnlinkMem(m, ids[k]), Removed(ids, k);
            && (forall i :: 0 <= i < |ids| ==> ids[i] in m) && (forall i :: 0 <= i < |r| ==> r[i] in m')
            && Contents(m', r) == Removed(Contents(m, ids), k)
  {
    hide UnlinkMem, Removed, Distinct, Contents, Linked, HeadOf;
    UnlinkLoads(m, ids, k);
    UnlinkLinked(m, ids, k);
    var m', r := UnlinkMem(m, ids[k]), Removed(ids, k);
    AllPresent(m, ids);
    AllPresent(m', r);
    RemovedElements(ids, k);
    RemovedElements(Contents(m, ids), k);
    forall i: nat | i < |r|
      ensures Contents(m', r)[i] == Removed(Contents(m, ids), k)[i]
    {
      assert r[i] == if i < k then ids[i] else ids[i + 1];
      DistinctAt(ids, i, k);
      DistinctAt(ids, i + 1, k);
    }
  }

  lemma UnlinkHead(ids: seq<nat>, k: nat)
    requires k < |ids|
    ensures HeadOf(Removed(ids, k)) == if k == 0 then NextOf(ids, 0) else HeadOf(ids)
  {
  }

  // ---------- the lists ----------

  class RegionList {
    const d: Direction
    var mem: Memory
    var head: Pointer
    ghost var ids: seq<nat>

    constructor (d: Direction, m: Memory)
      ensures Valid() && ids == [] && this.d == d && mem == m
    {
      this.d, mem := d, m;
      head, ids := Null, [];
    }

    ghost predicate Valid()
      reads this
    {
      head == HeadOf(ids) && Distinct(ids) && Linked(mem, ids)
    }

    ghost function Regions(): seq<Region>
      requires Valid()
      reads this
    {
      assert forall i :: 0 <= i < |ids| ==> NodeOK(mem, ids, i);
      Contents(mem, ids)
    }

    /** The size is written into a descriptor before it joins the list. */
    method SetSize(x: nat, size: nat)
      requires Valid() && x in mem && x !in ids
      modifies this`mem
      ensures Valid() && Regions() == old(Regions()) && mem == old(mem)[x := old(mem)[x].(size := size)]
    {
      mem := mem[x := mem[x].(size := size)];
      forall i: nat | i < |ids|
        ensures NodeOK(mem, ids, i) && mem[ids[i]] == old(mem)[ids[i]]
      {
        LinkedNode(old(mem), ids, i);
        assert ids[i] in ids;
      }
    }

    /** The walk of vfree and user_free_stack to the descriptor whose region starts at `base`. */
    method Find(base: nat) returns (x: Pointer, ghost k: nat)
      requires Valid()
      ensures x.Null? ==> forall r :: r in Regions() ==> r.base != base
      ensures x.To? ==> k < |ids| && ids[k] == x.id && x.id in mem && Regions()[k] == Region(base, mem[x.id].size)
    {
      hide Distinct, Linked, NodeOK;
      k := 0;
      x := head;
      while x.To?
        invariant k <= |ids| && x == if k < |ids| then To(ids[k]) else Null
        invariant forall j :: 0 <= j < k ==> Regions()[j].base != base
        decreases |ids| - k
      {
        LinkedFields(mem, ids, k);
        if mem[x.id].base == base {
          return;
        }
        x := mem[x.id].next;
        k := k + 1;
      }
    }

    /** vm_add_to_list and us_add_to_list: place the descriptor by first fit behind the head, or at the start of an
        empty list. */
    method Add(x: nat)
      requires Valid() && x in mem && x !in ids
      modifies this
      ensures Valid()
      ensures Regions() == Insert(d, old(Regions()), old(mem)[x].size)
      ensures x in mem && Region(mem[x].base, mem[x].size) == Insert(d, old(Regions()), old(mem)[x].size)[Place(d, old(Regions()), old(mem)[x].size)]
      ensures head == NewHead(old(head), x)
      ensures ids == if old(ids) == [] then [x] else Inserted(old(ids), Place(d, old(Regions()), old(mem)[x].size) - 1, x)
    {
      if head == Null {
        AddFirst(x);
      } else {
        AddBehind(x);
      }
    }

    /** A further region: the search, and the links behind the descriptor found. */
    method AddBehind(x: nat)
      requires Valid() && x in mem && x !in ids && ids != []
      modifies this
      ensures Valid() && head == old(head) && x in mem
      ensures Regions() == Insert(d, old(Regions()), old(mem)[x].size)
      ensures Region(mem[x].base, mem[x].size) == Regions()[Place(d, old(Regions()), old(mem)[x].size)]
      ensures ids == Inserted(old(ids), Place(d, old(Regions()), old(mem)[x].size) - 1, x)
    {
      hide Distinct, Linked, Stop, GapFits, Wrap, Inserted, Insert, Place, After, HeadOf;
      ghost var l, size := Regions(), mem[x].size;
      InsertIs(d, l, size);
      ghost var k := Stop(d, l, size, 0);
      InsertedElements(ids, k, x);
      var current, next := FindGap(x);
      LinkAfter(current, next, x, k);
      LinkedFields(mem, ids, k + 1);
      assert Regions()[k + 1] == Region(mem[ids[k + 1]].base, mem[ids[k + 1]].size);
    }

    lemma InsertIs(d: Direction, l: seq<Region>, size: nat)
      requires l != []
      ensures var k := Stop(d, l, size, 0);
              Insert(d, l, size) == Inserted(l, k, Region(After(d, l[k]), size)) && Place(d, l, size) == k + 1
    {
      hide Stop, GapFits, After;
    }

    /** The first region of a list. */
    method AddFirst(x: nat)
      requires Valid() && x in mem && head == Null
      modifies this
      ensures Valid() && head == To(x) && ids == [x] && x in mem && Region(mem[x].base, mem[x].size) == Region(Start(d), old(mem)[x].size)
      ensures Regions() == [Region(Start(d), old(mem)[x].size)]
    {
      mem := mem[x := mem[x].(base := Start(d), prev := Null, next := Null)];
      head := To(x);
      ids := [x];
      assert NodeOK(mem, ids, 0);
    }

    /** The search loop: the descriptor to place `x` behind, and its successor. */
    method FindGap(x: nat) returns (current: nat, next: Pointer)
      requires Valid() && x in mem && ids != []
      ensures var k := Stop(d, Regions(), mem[x].size, 0);
              current == ids[k] && next == NextOf(ids, k)
    {
      hide Distinct, Linked, GapFits, Stop, NodeOK;
      ghost var l, size, k := Regions(), mem[x].size, 0;
      current := head.id;
      LinkedFields(mem, ids, 0);
      next := mem[current].next;
      while next.To?
        invariant 0 <= k < |ids| && current == ids[k] && current in mem && next == NextOf(ids, k)
        invariant Stop(d, l, size, k) == Stop(d, l, size, 0)
        decreases |ids| - k
      {
        LinkedFields(mem, ids, k);
        LinkedFields(mem, ids, k + 1);
        assert l[k] == Region(mem[ids[k]].base, mem[ids[k]].size) && l[k + 1] == Region(mem[ids[k + 1]].base, mem[ids[k + 1]].size);
        StopHere(d, l, size, k);
        if GapFits(d, Region(mem[current].base, mem[current].size), mem[x].size, Region(mem[next.id].base, mem[next.id].size)) {
          return;
        }
        current := next.id;
        next := mem[current].next;
        k := k + 1;
      }
      StopHere(d, l, size, k);
    }

    /** Relink `x` between `current` and `next`, right behind the region of `current`. */
    method LinkAfter(current: nat, next: Pointer, x: nat, ghost k: nat)
      requires Valid() && x in mem && x !in ids && k < |ids| && current == ids[k] && next == NextOf(ids, k)
      modifies this
      ensures Valid() && ids == Inserted(old(ids), k, x) && head == old(head)
      ensures Regions() == Inserted(old(Regions()), k, Region(After(d, old(Regions())[k]), old(mem)[x].size))
    {
      assert NodeOK(mem, ids, k);
      if k + 1 < |ids| { assert NodeOK(mem, ids, k + 1); }
      ghost var m := mem;
      var base := After(d, Region(mem[current].base, mem[current].size));
      LinkLinked(mem, ids, k, x, base);
      LinkContents(mem, ids, k, x, base);
      hide Distinct, Linked, After;
      mem := mem[x := mem[x].(base := base, next := next, prev := To(current))];
      mem := mem[current := mem[current].(next := To(x))];
      if next.To? {
        mem := mem[next.id := mem[next.id].(prev := To(x))];
      }
      assert mem == LinkMem(m, ids, k, x, base);
      ids := Inserted(ids, k, x);
    }

    /** vm_remove_from_list and us_remove_from_list. */
    method Remove(x: nat, ghost k: nat)
      requires Valid() && k < |ids| && ids[k] == x
      modifies this
      ensures Valid() && ids == Removed(old(ids), k)
      ensures Regions() == Removed(old(Regions()), k)
    {
      hide Distinct, Linked;
      UnlinkLinked(mem, ids, k);
      UnlinkContents(mem, ids, k);
      ghost var m := mem;
      DistinctAt(ids, 0, k);
      assert head == To(x) <==> k == 0;
      var next, prev := mem[x].next, mem[x].prev;
      if head == To(x) {
        head := next;
      }
      if next.To? {
        mem := mem[next.id := mem[next.id].(prev := prev)];
      }
      if prev.To? {
        mem := mem[prev.id := mem[prev.id].(next := next)];
      }
      mem := mem[x := mem[x].(next := Null, prev := Null)];
      assert mem == UnlinkMem(m, x);
      ids := Removed(ids, k);
    }
  }
}
