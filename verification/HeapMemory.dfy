/** Heap memory as 8-byte words, and doubly linked lists of pages threaded through it. */
module HeapMemory {
  import opened Basics
  import opened Blocks
  import opened BuddyModel

  /** The address HEAP_START + page * PAGE_SIZE + off. */
  datatype Loc = Loc(page: int, off: int)

  /** Contents of a word. `Counts` packs the two 32-bit counters of a slab header; `Data` is whatever else a caller stores. */
  datatype Word = Null | Ptr(loc: Loc) | Counts(free: nat, total: nat) | Cache(id: nat) | Data(value: int)

  type Memory = map<Loc, Word>

  function Load(m: Memory, l: Loc): Word {
    if l in m then m[l] else Data(0)
  }

  /** A pointer to the start of a page, where list nodes and slab headers are. */
  function Node(p: nat): Word { Ptr(Loc(p, 0)) }

  function First(l: seq<nat>): Word {
    if l == [] then Null else Node(l[0])
  }

  /** `l` is the list that starts at `head`, with the `prev` link of a node at offset `po` and the `next` link at `no`. */
  ghost predicate Linked(m: Memory, head: Word, l: seq<nat>, po: int, no: int) {
    && head == First(l)
    && (forall i :: 0 <= i < |l| ==>
         Load(m, Loc(l[i], po)) == PrevOf(l, i) && Load(m, Loc(l[i], no)) == NextOf(l, i))
  }

  function PrevOf(l: seq<nat>, i: nat): Word
    requires i < |l|
  {
    if i == 0 then Null else Node(l[i - 1])
  }

  function NextOf(l: seq<nat>, i: nat): Word
    requires i < |l|
  {
    if i + 1 < |l| then Node(l[i + 1]) else Null
  }

  ghost predicate NoCommon(lists: seq<seq<nat>>) {
    forall j, k, p :: 0 <= j < |lists| && 0 <= k < |lists| && p in lists[j] && p in lists[k] ==> j == k
  }

  /** A family of lists that share no node, each linked from its own head. */
  ghost predicate Lists(m: Memory, heads: seq<Word>, lists: seq<seq<nat>>, po: int, no: int) {
    && |heads| == |lists|
    && NoCommon(lists)
    && (forall k :: 0 <= k < |lists| ==> Distinct(lists[k]) && Linked(m, heads[k], lists[k], po, no))
  }

  ghost predicate InSome(lists: seq<seq<nat>>, p: nat) {
    exists k :: 0 <= k < |lists| && p in lists[k]
  }

  // ---------- inserting at the head ----------

  function PushMem(m: Memory, head: Word, p: nat, po: int, no: int): Memory {
    var m1 := m[Loc(p, po) := Null][Loc(p, no) := head];
    if head.Ptr? then m1[Loc(head.loc.page, po) := Node(p)] else m1
  }

  lemma PushLoads(m: Memory, head: Word, p: nat, po: int, no: int)
    requires po != no
    ensures var r := PushMem(m, head, p, po, no);
            && Load(r, Loc(p, no)) == head
            && (head.Ptr? ==> Load(r, Loc(head.loc.page, po)) == Node(p))
            && ((head.Ptr? && head.loc.page == p) || Load(r, Loc(p, po)) == Null)
            && forall x :: x != Loc(p, po) && x != Loc(p, no) && (head.Ptr? ==> x != Loc(head.loc.page, po)) ==> Load(r, x) == Load(m, x)
  {
  }

  lemma PushNeighbours(l: seq<nat>, p: nat, i: nat)
    requires i <= |l|
    ensures var r := [p] + l;
            && NextOf(r, i) == (if i == 0 then First(l) else NextOf(l, i - 1))
            && PrevOf(r, i) == (if i == 0 then Null else if i == 1 then Node(p) else PrevOf(l, i - 1))
            && r[i] == if i == 0 then p else l[i - 1]
  {
  }

  lemma LinkedPush(m: Memory, head: Word, l: seq<nat>, p: nat, po: int, no: int)
    requires Linked(m, head, l, po, no) && Distinct(l) && p !in l && po != no
    ensures Linked(PushMem(m, head, p, po, no), Node(p), [p] + l, po, no)
  {
    hide PushMem, Load, PrevOf, NextOf;
    var r, m' := [p] + l, PushMem(m, head, p, po, no);
    assert l != [] ==> l[0] in l;
    PushLoads(m, head, p, po, no);
    forall i | 0 <= i < |r|
      ensures Load(m', Loc(r[i], po)) == PrevOf(r, i) && Load(m', Loc(r[i], no)) == NextOf(r, i)
    {
      PushNeighbours(l, p, i);
      if i > 0 {
        assert l[i - 1] in l;
        assert Load(m, Loc(l[i - 1], no)) == NextOf(l, i - 1);
        assert i > 1 ==> l[i - 1] != l[0];
      }
    }
  }

  lemma LinkedFrame(m: Memory, m': Memory, head: Word, l: seq<nat>, po: int, no: int)
    requires Linked(m, head, l, po, no)
    requires forall p :: p in l ==> Load(m', Loc(p, po)) == Load(m, Loc(p, po)) && Load(m', Loc(p, no)) == Load(m, Loc(p, no))
    ensures Linked(m', head, l, po, no)
  {
    forall i | 0 <= i < |l|
      ensures l[i] in l
    {
    }
  }

  lemma PushKeepsShape(lists: seq<seq<nat>>, k: nat, p: nat)
    requires NoCommon(lists) && k < |lists| && !InSome(lists, p) && Distinct(lists[k])
    ensures NoCommon(Push(lists, p, k)) && Distinct(Push(lists, p, k)[k])
  {
    assert p !in lists[k];
    assert forall q :: q in [p] + lists[k] <==> q == p || q in lists[k];
  }

  lemma PushLists(m: Memory, heads: seq<Word>, lists: seq<seq<nat>>, k: nat, p: nat, po: int, no: int)
    requires Lists(m, heads, lists, po, no) && k < |lists| && !InSome(lists, p) && po != no
    ensures Lists(PushMem(m, heads[k], p, po, no), heads[k := Node(p)], Push(lists, p, k), po, no)
  {
    hide PushMem, Linked, Load, NoCommon, InSome;
    var m' := PushMem(m, heads[k], p, po, no);
    PushKeepsShape(lists, k, p);
    NotListed(lists, k, p);
    LinkedPush(m, heads[k], lists[k], p, po, no);
    HeadIs(m, heads[k], lists[k], po, no);
    PushTouches(m, heads[k], lists[k], p, po, no);
    forall j | 0 <= j < |lists| && j != k
      ensures Linked(m', heads[j], lists[j], po, no)
    {
      NotListed(lists, j, p);
      ListsApart(lists, j, k);
      LinkedFrame(m, m', heads[j], lists[j], po, no);
    }
  }

  lemma NotListed(lists: seq<seq<nat>>, k: nat, p: nat)
    requires k < |lists| && !InSome(lists, p)
    ensures p !in lists[k]
  {
  }

  lemma HeadIs(m: Memory, head: Word, l: seq<nat>, po: int, no: int)
    requires Linked(m, head, l, po, no)
    ensures head == First(l)
  {
  }

  lemma ListsApart(lists: seq<seq<nat>>, j: nat, k: nat)
    requires NoCommon(lists) && j < |lists| && k < |lists| && j != k
    ensures forall q :: q in lists[j] ==> q !in lists[k]
  {
  }

  // ---------- removing from anywhere ----------

  /** What unlinking `p` does to memory: its neighbours are joined to each other. */
  function UnlinkMem(m: Memory, p: nat, po: int, no: int): Memory {
    var prev, next := Load(m, Loc(p, po)), Load(m, Loc(p, no));
    var m1 := if prev.Ptr? then m[Loc(prev.loc.page, no) := next] else m;
    if next.Ptr? then m1[Loc(next.loc.page, po) := prev] else m1
  }

  function UnlinkHead(m: Memory, head: Word, p: nat, po: int, no: int): Word {
    if Load(m, Loc(p, po)).Ptr? then head else Load(m, Loc(p, no))
  }

  lemma {:induction false} RemoveAt<T>(l: seq<T>, i: nat)
    requires Distinct(l) && i < |l|
    ensures Remove(l, l[i]) == l[..i] + l[i + 1..]
  {
    if i > 0 {
      assert l[1..][i - 1] == l[i];
      RemoveAt(l[1..], i - 1);
      assert [l[0]] + (l[1..][..i - 1] + l[1..][i..]) == l[..i] + l[i + 1..];
    }
  }

  lemma UnlinkLoads(m: Memory, p: nat, po: int, no: int)
    requires po != no
    ensures var r, prev, next := UnlinkMem(m, p, po, no), Load(m, Loc(p, po)), Load(m, Loc(p, no));
            && (prev.Ptr? ==> Load(r, Loc(prev.loc.page, no)) == next)
            && (next.Ptr? ==> Load(r, Loc(next.loc.page, po)) == prev)
            && forall x :: (prev.Ptr? ==> x != Loc(prev.loc.page, no)) && (next.Ptr? ==> x != Loc(next.loc.page, po)) ==> Load(r, x) == Load(m, x)
  {
  }

  /** Neighbours in a list from which element i was taken out. */
  lemma GapNeighbours(l: seq<nat>, i: nat, j: nat)
    requires i < |l| && j + 1 < |l|
    ensures var r, o := l[..i] + l[i + 1..], if j < i then j else j + 1;
            && r[j] == l[o]
            && NextOf(r, j) == (if o + 1 == i then NextOf(l, i) else NextOf(l, o))
            && PrevOf(r, j) == (if o == i + 1 then PrevOf(l, i) else PrevOf(l, o))
  {
  }

  lemma LinkedUnlink(m: Memory, head: Word, l: seq<nat>, i: nat, po: int, no: int)
    requires Linked(m, head, l, po, no) && Distinct(l) && i < |l| && po != no
    ensures Linked(UnlinkMem(m, l[i], po, no), UnlinkHead(m, head, l[i], po, no), l[..i] + l[i + 1..], po, no)
  {
    var r, m' := l[..i] + l[i + 1..], UnlinkMem(m, l[i], po, no);
    UnlinkLoads(m, l[i], po, no);
    assert Load(m, Loc(l[i], po)) == PrevOf(l, i) && Load(m, Loc(l[i], no)) == NextOf(l, i);
    assert UnlinkHead(m, head, l[i], po, no) == First(r) by {
      assert i > 0 ==> r[0] == l[0];
      assert i == 0 && |l| > 1 ==> r[0] == l[1];
    }
    hide UnlinkMem, UnlinkHead, Load;
    forall j | 0 <= j < |r|
      ensures Load(m', Loc(r[j], po)) == PrevOf(r, j) && Load(m', Loc(r[j], no)) == NextOf(r, j)
    {
      var o := if j < i then j else j + 1;
      GapNeighbours(l, i, j);
      GapNode(m, m', l, i, o, po, no);
    }
  }

  lemma GapNode(m: Memory, m': Memory, l: seq<nat>, i: nat, o: nat, po: int, no: int)
    requires Distinct(l) && i < |l| && o < |l| && o != i && po != no
    requires Load(m, Loc(l[i], po)) == PrevOf(l, i) && Load(m, Loc(l[i], no)) == NextOf(l, i)
    requires Load(m, Loc(l[o], po)) == PrevOf(l, o) && Load(m, Loc(l[o], no)) == NextOf(l, o)
    requires m' == UnlinkMem(m, l[i], po, no)
    ensures Load(m', Loc(l[o], po)) == (if o == i + 1 then PrevOf(l, i) else PrevOf(l, o))
    ensures Load(m', Loc(l[o], no)) == (if o + 1 == i then NextOf(l, i) else NextOf(l, o))
  {
    hide UnlinkMem, Load;
    UnlinkLoads(m, l[i], po, no);
    assert i > 0 && o != i - 1 ==> l[o] != l[i - 1];
    assert i + 1 < |l| && o != i + 1 ==> l[o] != l[i + 1];
  }

  lemma UnlinkKeepsShape(lists: seq<seq<nat>>, k: nat, p: nat)
    requires NoCommon(lists) && k < |lists| && p in lists[k] && Distinct(lists[k])
    ensures NoCommon(Unlink(lists, p, k)) && Distinct(Unlink(lists, p, k)[k]) && !InSome(Unlink(lists, p, k), p)
  {
    RemoveElements(lists[k], p);
  }

  lemma UnlinkLists(m: Memory, heads: seq<Word>, lists: seq<seq<nat>>, k: nat, p: nat, po: int, no: int)
    requires Lists(m, heads, lists, po, no) && k < |lists| && p in lists[k] && po != no
    ensures Lists(UnlinkMem(m, p, po, no), heads[k := UnlinkHead(m, heads[k], p, po, no)], Unlink(lists, p, k), po, no)
    ensures !InSome(Unlink(lists, p, k), p)
  {
    hide UnlinkMem, UnlinkHead, Linked, Load;
    var l, m' := lists[k], UnlinkMem(m, p, po, no);
    var i :| 0 <= i < |l| && l[i] == p;
    RemoveAt(l, i);
    UnlinkKeepsShape(lists, k, p);
    LinkedUnlink(m, heads[k], l, i, po, no);
    UnlinkTouches(m, heads[k], l, i, po, no);
    forall j | 0 <= j < |lists| && j != k
      ensures Linked(m', heads[j], lists[j], po, no)
    {
      assert forall q :: q in lists[j] ==> q !in l;
      LinkedFrame(m, m', heads[j], lists[j], po, no);
    }
  }

  /** Unlinking writes only link words of nodes of the same list. */
  lemma UnlinkTouches(m: Memory, head: Word, l: seq<nat>, i: nat, po: int, no: int)
    requires Linked(m, head, l, po, no) && i < |l|
    ensures forall x: Loc :: (forall q :: q in l ==> q != x.page) || (x.off != po && x.off != no) ==>
              Load(UnlinkMem(m, l[i], po, no), x) == Load(m, x)
  {
    assert Load(m, Loc(l[i], po)) == PrevOf(l, i) && Load(m, Loc(l[i], no)) == NextOf(l, i);
    if i > 0 { assert l[i - 1] in l; }
    if i + 1 < |l| { assert l[i + 1] in l; }
  }

  /** Pushing writes only link words of the new node and of the old head. */
  lemma PushTouches(m: Memory, head: Word, l: seq<nat>, p: nat, po: int, no: int)
    requires head == First(l)
    ensures forall x: Loc :: (x.page != p && forall q :: q in l ==> q != x.page) || (x.off != po && x.off != no) ==>
              Load(PushMem(m, head, p, po, no), x) == Load(m, x)
  {
    if l != [] { assert l[0] in l; }
  }

  lemma ListsFrame(m: Memory, m': Memory, heads: seq<Word>, lists: seq<seq<nat>>, po: int, no: int)
    requires Lists(m, heads, lists, po, no)
    requires forall p: nat :: InSome(lists, p) ==> Load(m', Loc(p, po)) == Load(m, Loc(p, po)) && Load(m', Loc(p, no)) == Load(m, Loc(p, no))
    ensures Lists(m', heads, lists, po, no)
  {
    forall k | 0 <= k < |lists|
      ensures Linked(m', heads[k], lists[k], po, no)
    {
      assert forall p :: p in lists[k] ==> InSome(lists, p);
      LinkedFrame(m, m', heads[k], lists[k], po, no);
    }
  }
}
