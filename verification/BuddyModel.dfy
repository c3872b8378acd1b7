/** The buddy allocator on values: the free list of every order, most recently linked block first. */
module BuddyModel {
  import opened Basics
  import opened Blocks
  import opened BuddyTiling

  /** `used` gives every allocated block's order at its first page. */
  datatype State = State(lists: seq<seq<nat>>, used: map<nat, nat>)

  datatype Outcome = Exhausted | Allocated(after: State, page: nat)

  ghost function FreeSet(lists: seq<seq<nat>>): set<Block> {
    set k, p | 0 <= k < |lists| && p in lists[k] :: Block(p, k)
  }

  ghost function UsedSet(used: map<nat, nat>): set<Block> {
    set p | p in used :: Block(p, used[p])
  }

  ghost predicate WellFormed(lists: seq<seq<nat>>) {
    |lists| == MAX_ORDERS + 1 && forall k :: 0 <= k < |lists| ==> Distinct(lists[k])
  }

  ghost predicate Inv(s: State) {
    WellFormed(s.lists) && Canonical(FreeSet(s.lists), UsedSet(s.used))
  }

  function Push(lists: seq<seq<nat>>, p: nat, k: nat): seq<seq<nat>>
    requires k < |lists|
  {
    lists[k := [p] + lists[k]]
  }

  /** `l` without the first occurrence of `p`. */
  function Remove<T(==)>(l: seq<T>, p: T): seq<T> {
    if l == [] then [] else if l[0] == p then l[1..] else [l[0]] + Remove(l[1..], p)
  }

  function Unlink(lists: seq<seq<nat>>, p: nat, k: nat): seq<seq<nat>>
    requires k < |lists|
  {
    lists[k := Remove(lists[k], p)]
  }

  function Init(): State {
    State(seq(MAX_ORDERS, _ => []) + [[0]], map[])
  }

  /** The least order from `i` up whose list is not empty, or the number of lists. */
  function FirstFit(lists: seq<seq<nat>>, i: nat): (r: nat)
    ensures i <= |lists| ==> i <= r <= |lists|
    ensures r < |lists| ==> lists[r] != []
    ensures forall j :: i <= j < r && j < |lists| ==> lists[j] == []
    decreases |lists| - i
  {
    if i >= |lists| || lists[i] != [] then i else FirstFit(lists, i + 1)
  }

  /** Halve the block in hand from order `i` down to `order`, linking each upper half. */
  function SplitDown(lists: seq<seq<nat>>, p: nat, i: nat, order: nat): (r: seq<seq<nat>>)
    requires order <= i < |lists|
    ensures |r| == |lists|
    decreases i
  {
    if i == order then lists
    else SplitDown(Push(lists, p + Pow2(i - 1), i - 1), p, i - 1, order)
  }

  function Alloc(s: State, order: nat): Outcome {
    var i := FirstFit(s.lists, order);
    if i >= |s.lists| then Exhausted
    else
      var p := s.lists[i][0];
      Allocated(State(SplitDown(s.lists[i := s.lists[i][1..]], p, i, order), s.used[p := order]), p)
  }

  /** Link block `b`, first merging it with its buddy as long as that buddy is free at the same order. */
  function Release(lists: seq<seq<nat>>, b: Block): (r: seq<seq<nat>>)
    requires b.order < |lists| == MAX_ORDERS + 1
    ensures |r| == |lists|
    decreases MAX_ORDERS - b.order
  {
    if b.order < MAX_ORDERS && Buddy(b).page in lists[b.order] then
      Release(Unlink(lists, Buddy(b).page, b.order), Parent(b))
    else Push(lists, b.page, b.order)
  }

  function Free(s: State, p: nat): State
    requires |s.lists| == MAX_ORDERS + 1 && p in s.used && s.used[p] <= MAX_ORDERS
  {
    State(Release(s.lists, Block(p, s.used[p])), s.used - {p})
  }

  // ---------- free lists as sets ----------

  lemma {:induction false} RemoveElements<T>(l: seq<T>, p: T)
    requires Distinct(l)
    ensures Distinct(Remove(l, p)) && forall q :: q in Remove(l, p) <==> q in l && q != p
  {
    if l != [] && l[0] != p {
      RemoveElements(l[1..], p);
      var r := Remove(l[1..], p);
      assert l[0] !in r;
      forall i, j | 0 <= i < j < |r| + 1
        ensures ([l[0]] + r)[i] != ([l[0]] + r)[j]
      {
        assert r[j - 1] in r;
      }
    }
  }

  lemma PushSet(lists: seq<seq<nat>>, p: nat, k: nat)
    requires WellFormed(lists) && k < |lists| && Block(p, k) !in FreeSet(lists)
    ensures WellFormed(Push(lists, p, k)) && FreeSet(Push(lists, p, k)) == FreeSet(lists) + {Block(p, k)}
  {
    var r := Push(lists, p, k);
    forall q, j | 0 <= j < |lists|
      ensures q in r[j] <==> q in lists[j] || (q == p && j == k)
    {
    }
  }

  lemma UnlinkSet(lists: seq<seq<nat>>, p: nat, k: nat)
    requires WellFormed(lists) && k < |lists|
    ensures WellFormed(Unlink(lists, p, k)) && FreeSet(Unlink(lists, p, k)) == FreeSet(lists) - {Block(p, k)}
  {
    RemoveElements(lists[k], p);
    var r := Unlink(lists, p, k);
    forall q, j | 0 <= j < |lists|
      ensures q in r[j] <==> q in lists[j] && !(q == p && j == k)
    {
    }
  }

  lemma {:induction false} SplitDownCanonical(lists: seq<seq<nat>>, used: set<Block>, p: nat, i: nat, order: nat)
    requires WellFormed(lists) && order <= i < |lists|
    requires Canonical(FreeSet(lists), used) && Block(p, i) in used
    ensures var r := SplitDown(lists, p, i, order);
            WellFormed(r) && Canonical(FreeSet(r), used - {Block(p, i)} + {Block(p, order)})
    decreases i
  {
    hide Canonical, Placed, FreeSet, WellFormed;
    if i == order {
      assert used - {Block(p, i)} + {Block(p, order)} == used;
    } else {
      Split(FreeSet(lists), used, Block(p, i));
      var used1 := used - {Block(p, i)} + {Block(p, i - 1)};
      PushSet(lists, p + Pow2(i - 1), i - 1);
      SplitDownCanonical(Push(lists, p + Pow2(i - 1), i - 1), used1, p, i - 1, order);
      assert used1 - {Block(p, i - 1)} + {Block(p, order)} == used - {Block(p, i)} + {Block(p, order)};
    }
  }

  lemma {:induction false} ReleaseCanonical(lists: seq<seq<nat>>, used: set<Block>, b: Block)
    requires WellFormed(lists) && Canonical(FreeSet(lists), used) && b in used && b.order < |lists|
    ensures var r := Release(lists, b);
            WellFormed(r) && Canonical(FreeSet(r), used - {b})
    decreases MAX_ORDERS - b.order
  {
    var q := Buddy(b);
    assert q in FreeSet(lists) <==> q.page in lists[q.order];
    if b.order < MAX_ORDERS && q.page in lists[b.order] {
      assert b in FreeSet(lists) + used;
      Merge(FreeSet(lists), used, b);
      var used1 := used - {b} + {Parent(b)};
      UnlinkSet(lists, q.page, b.order);
      ReleaseCanonical(Unlink(lists, q.page, b.order), used1, Parent(b));
      assert used1 - {Parent(b)} == used - {b};
    } else {
      Put(FreeSet(lists), used, b);
      PushSet(lists, b.page, b.order);
    }
  }

  // ---------- the allocator keeps its invariant ----------

  lemma InitInv()
    ensures Inv(Init())
  {
    InitialCanonical();
    var l := Init().lists;
    assert l[MAX_ORDERS] == [0];
    assert forall k :: 0 <= k < MAX_ORDERS ==> l[k] == [];
    assert FreeSet(l) == {WHOLE} by {
      assert 0 in l[MAX_ORDERS];
    }
    assert UsedSet(map[]) == {};
  }

  lemma StartOfFreeNotUsed(s: State, b: Block)
    requires Inv(s) && b in FreeSet(s.lists)
    ensures b.page !in s.used
  {
    forall p | p in s.used
      ensures p != b.page
    {
      var u := Block(p, s.used[p]);
      assert u in UsedSet(s.used);
      assert b in FreeSet(s.lists) + UsedSet(s.used) && u in FreeSet(s.lists) + UsedSet(s.used) && b != u;
      assert Apart(b, u);
    }
  }

  lemma UsedSetUpdate(used: map<nat, nat>, p: nat, k: nat)
    requires p !in used
    ensures UsedSet(used[p := k]) == UsedSet(used) + {Block(p, k)}
  {
    var r := used[p := k];
    assert Block(p, r[p]) in UsedSet(r);
    forall q | q in used
      ensures Block(q, used[q]) in UsedSet(r)
    {
      assert q in r && r[q] == used[q];
    }
  }

  lemma UsedSetRemove(used: map<nat, nat>, p: nat)
    requires p in used
    ensures UsedSet(used - {p}) == UsedSet(used) - {Block(p, used[p])}
  {
    var r := used - {p};
    forall q | q in used && q != p
      ensures Block(q, used[q]) in UsedSet(r)
    {
      assert q in r && r[q] == used[q];
    }
  }

  /** What allocation hands out: a placed block, none of whose pages was allocated before. */
  lemma AllocKeepsInv(s: State, order: nat)
    requires Inv(s)
    ensures match Alloc(s, order)
            case Exhausted => true
            case Allocated(t, p) =>
              Inv(t) && Unallocated(UsedSet(s.used), Block(p, order)) && p !in s.used && t.used == s.used[p := order]
  {
    var i := FirstFit(s.lists, order);
    if i < |s.lists| {
      var p := s.lists[i][0];
      var b := Block(p, i);
      assert p in s.lists[i];
      assert b in FreeSet(s.lists);
      StartOfFreeNotUsed(s, b);
      FreeIsUnallocated(FreeSet(s.lists), UsedSet(s.used), b);
      Take(FreeSet(s.lists), UsedSet(s.used), b);
      var lists1 := s.lists[i := s.lists[i][1..]];
      assert lists1 == Unlink(s.lists, p, i);
      UnlinkSet(s.lists, p, i);
      SplitDownCanonical(lists1, UsedSet(s.used) + {b}, p, i, order);
      UsedSetUpdate(s.used, p, order);
      BlockNotUsed(s, p, i);
      assert UsedSet(s.used) + {b} - {b} + {Block(p, order)} == UsedSet(s.used[p := order]);
      LowerPart(UsedSet(s.used), b, order);
    }
  }

  lemma BlockNotUsed(s: State, p: nat, i: nat)
    requires p !in s.used
    ensures Block(p, i) !in UsedSet(s.used)
  {
  }

  lemma {:induction false} LowerPart(used: set<Block>, b: Block, order: nat)
    requires order <= b.order && Unallocated(used, b)
    ensures Unallocated(used, Block(b.page, order))
    decreases b.order
  {
    if order < b.order {
      Halves(b);
      assert forall x :: Contains(Lower(b), x) ==> Contains(b, x);
      LowerPart(used, Lower(b), order);
    }
  }

  lemma FreeKeepsInv(s: State, p: nat)
    requires Inv(s) && p in s.used
    ensures s.used[p] <= MAX_ORDERS && Inv(Free(s, p))
  {
    var b := Block(p, s.used[p]);
    assert b in UsedSet(s.used);
    assert b in FreeSet(s.lists) + UsedSet(s.used);
    ReleaseCanonical(s.lists, UsedSet(s.used), b);
    UsedSetRemove(s.used, p);
  }

  // ---------- main results ----------

  /** Completeness: allocation fails exactly when no aligned run of 2^order pages is wholly unallocated. */
  lemma AllocFailsIffNoRun(s: State, order: nat)
    requires Inv(s)
    ensures Alloc(s, order).Exhausted? <==> forall b: Block :: b.order == order ==> !Unallocated(UsedSet(s.used), b)
  {
    if Alloc(s, order).Allocated? {
      AllocKeepsInv(s, order);
      assert Unallocated(UsedSet(s.used), Block(Alloc(s, order).page, order));
    } else {
      forall b: Block | b.order == order
        ensures !Unallocated(UsedSet(s.used), b)
      {
        if Unallocated(UsedSet(s.used), b) {
          var f := RunInsideFreeBlock(FreeSet(s.lists), UsedSet(s.used), b);
        }
      }
    }
  }

  /** Freeing a fresh allocation restores the set of free blocks exactly. */
  lemma FreeUndoesAlloc(s: State, order: nat)
    requires Inv(s) && Alloc(s, order).Allocated?
    ensures var Allocated(t, p) := Alloc(s, order);
            p in t.used && t.used[p] <= MAX_ORDERS && |t.lists| == MAX_ORDERS + 1 &&
            var u := Free(t, p);
            Inv(u) && u.used == s.used && FreeSet(u.lists) == FreeSet(s.lists)
  {
    AllocKeepsInv(s, order);
    var Allocated(t, p) := Alloc(s, order);
    FreeKeepsInv(t, p);
    assert t.used - {p} == s.used;
    FreeDetermined(FreeSet(Free(t, p).lists), UsedSet(s.used), FreeSet(s.lists), UsedSet(s.used));
  }

  /** Full recombination: with nothing allocated the heap is one block of the top order again. */
  lemma EmptyIsInit(s: State)
    requires Inv(s) && s.used == map[]
    ensures s == Init()
  {
    InitInv();
    FreeDetermined(FreeSet(s.lists), UsedSet(s.used), FreeSet(Init().lists), UsedSet(Init().used));
    ListsFromSet(s.lists, Init().lists);
  }

  lemma HasElement<T>(l: seq<T>)
    ensures l == [] || exists q :: q in l
  {
    if l != [] { assert l[0] in l; }
  }

  lemma HeadNotInTail<T>(l: seq<T>)
    requires Distinct(l) && l != []
    ensures l[0] !in l[1..]
  {
  }

  lemma OnlyElement<T>(l: seq<T>, x: T)
    requires Distinct(l) && forall q :: q in l <==> q == x
    ensures l == [x]
  {
    assert x in l && l[0] in l;
    HeadNotInTail(l);
    assert l == [l[0]] + l[1..];
    assert forall q :: q in l[1..] ==> q in l;
    HasElement(l[1..]);
  }

  lemma ListsFromSet(l: seq<seq<nat>>, m: seq<seq<nat>>)
    requires WellFormed(l) && m == Init().lists && FreeSet(l) == FreeSet(m)
    ensures l == m
  {
    forall k | 0 <= k < |l|
      ensures l[k] == m[k]
    {
      forall p
        ensures p in l[k] <==> p in m[k]
      {
        assert p in l[k] <==> Block(p, k) in FreeSet(l);
        assert p in m[k] <==> Block(p, k) in FreeSet(m);
      }
      if k < MAX_ORDERS {
        assert m[k] == [];
        HasElement(l[k]);
      } else {
        assert m[k] == [0];
        OnlyElement(l[k], 0);
      }
    }
  }
}
