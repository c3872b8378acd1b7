/** The first-fit region lists of vmalloc (growing up) and of user stacks (growing down), on values. */
module Regions {

  const VMALLOC_START: nat := 0xFFFF_C000_0000_0000
  const USER_STACK_MAX: nat := 0x0000_7FFF_FFFF_F000
  const WORD: nat := 0x1_0000_0000_0000_0000

  /** `base` is the lowest address of a vmalloc region, and the end of a stack region. */
  datatype Region = Region(base: nat, size: nat)

  /** 64-bit wrap-around. */
  function Wrap(x: int): (r: nat)
    ensures r < WORD
  {
    x % WORD
  }

  // Both lists are the same in ascending coordinates: distance from where the first region is placed.

  datatype Direction = Up | Down

  function Start(d: Direction): nat { if d == Up then VMALLOC_START else USER_STACK_MAX }

  /** Largest coordinate the address space has room for. */
  function Limit(d: Direction): nat { if d == Up then WORD - VMALLOC_START else USER_STACK_MAX }

  function Lo(d: Direction, r: Region): int { if d == Up then r.base - VMALLOC_START else USER_STACK_MAX - r.base }

  function Hi(d: Direction, r: Region): int { Lo(d, r) + r.size }

  /** Where the code puts a region that follows `r`: base + size, or base - size, in 64-bit arithmetic. */
  function After(d: Direction, r: Region): nat {
    if d == Up then Wrap(r.base + r.size) else Wrap(r.base - r.size)
  }

  /** Room or no room, it is the 64-bit number that differs from the true sum or difference by a multiple of 2^64. */
  lemma AfterWraps(d: Direction, r: Region)
    ensures 0 <= After(d, r) < 0x1_0000_0000_0000_0000
    ensures (After(d, r) - (if d == Up then r.base + r.size else r.base - r.size)) % 0x1_0000_0000_0000_0000 == 0
  {
    hide Wrap;
    WrapDiffers(if d == Up then r.base + r.size else r.base - r.size);
  }

  lemma WrapDiffers(x: int)
    ensures (Wrap(x) - x) % WORD == 0
  {
    var q := x / WORD;
    assert Wrap(x) - x == (-q) * WORD;
    WholeWords(-q);
  }

  lemma WholeWords(k: int)
    ensures k * WORD % WORD == 0
  {
  }

  /** The test of the search loop, in 64-bit arithmetic. */
  predicate GapFits(d: Direction, cur: Region, size: nat, next: Region) {
    if d == Up then Wrap(cur.base + cur.size + size) <= next.base
    else Wrap(cur.base - cur.size - size) >= next.base
  }

  /** The element after which the search stops: the first with a sufficient gap behind it, or the last. */
  function Stop(d: Direction, l: seq<Region>, size: nat, i: nat): (k: nat)
    requires i < |l|
    ensures i <= k < |l|
    ensures k + 1 < |l| ==> GapFits(d, l[k], size, l[k + 1])
    ensures forall j :: i <= j < k ==> !GapFits(d, l[j], size, l[j + 1])
    decreases |l| - i
  {
    if i + 1 == |l| || GapFits(d, l[i], size, l[i + 1]) then i else Stop(d, l, size, i + 1)
  }

  /** vm_add_to_list and us_add_to_list. */
  function Insert(d: Direction, l: seq<Region>, size: nat): seq<Region> {
    if l == [] then [Region(Start(d), size)]
    else
      var k := Stop(d, l, size, 0);
      l[..k + 1] + [Region(After(d, l[k]), size)] + l[k + 1..]
  }

  /** Position of the inserted region. */
  function Place(d: Direction, l: seq<Region>, size: nat): nat {
    if l == [] then 0 else Stop(d, l, size, 0) + 1
  }

  /** Sorted, pairwise disjoint, nonempty regions inside the address space. */
  ghost predicate Ordered(d: Direction, l: seq<Region>) {
    && (forall i :: 0 <= i < |l| ==> 0 <= Lo(d, l[i]) && 0 < l[i].size && Hi(d, l[i]) <= Limit(d))
    && (forall i, j :: 0 <= i < j < |l| ==> Hi(d, l[i]) <= Lo(d, l[j]))
  }

  /** A gap between neighbours, behind the head, that holds `size` bytes. */
  ghost predicate TrueGap(d: Direction, l: seq<Region>, size: nat, i: int) {
    0 <= i && i + 1 < |l| && Hi(d, l[i]) + size <= Lo(d, l[i + 1])
  }

  /** Room for `size` bytes where the lists look for it: a gap behind the head, or the space after the last region. */
  ghost predicate Room(d: Direction, l: seq<Region>, size: nat) {
    || (l == [] && size <= Limit(d))
    || (l != [] && Hi(d, l[|l| - 1]) + size <= Limit(d))
    || exists i :: TrueGap(d, l, size, i)
  }

  /** The loop's test agrees with the true gap as long as nothing wraps. */
  lemma GapTest(d: Direction, l: seq<Region>, size: nat, i: nat)
    requires Ordered(d, l) && i + 1 < |l| && 0 < size
    ensures TrueGap(d, l, size, i) ==> GapFits(d, l[i], size, l[i + 1])
    ensures GapFits(d, l[i], size, l[i + 1]) && Hi(d, l[i]) + size < Limit(d) ==> TrueGap(d, l, size, i)
    ensures Hi(d, l[i]) < Limit(d)
  {
    assert Hi(d, l[i]) <= Lo(d, l[i + 1]) < Hi(d, l[i + 1]) <= Limit(d);
  }

  lemma AfterIs(d: Direction, l: seq<Region>, k: nat)
    requires Ordered(d, l) && k < |l|
    ensures Hi(d, l[k]) < Limit(d) ==> Lo(d, Region(After(d, l[k]), 0)) == Hi(d, l[k])
    ensures Hi(d, l[k]) == Limit(d) ==> Lo(d, Region(After(d, l[k]), 0)) < 0 || Lo(d, Region(After(d, l[k]), 0)) == Limit(d)
  {
  }

  /** Insertion keeps the list sorted, disjoint and inside the address space if and only if there is room. */
  lemma InsertOrderedIff(d: Direction, l: seq<Region>, size: nat)
    requires Ordered(d, l) && 0 < size
    ensures Ordered(d, Insert(d, l, size)) <==> Room(d, l, size)
  {
    hide Ordered, Room, TrueGap, GapFits, After, Stop;
    if l == [] {
      InsertFirst(d, size);
    } else {
      var k := Stop(d, l, size, 0);
      InsertAt(d, l, k, Region(After(d, l[k]), size));
      AfterIs(d, l, k);
      if Room(d, l, size) {
        RoomPlaces(d, l, size);
      } else {
        NoRoomOverruns(d, l, size);
      }
    }
  }

  lemma InsertFirst(d: Direction, size: nat)
    requires 0 < size
    ensures Ordered(d, Insert(d, [], size)) <==> Room(d, [], size)
  {
    var r := Insert(d, [], size);
    assert r[0] == Region(Start(d), size);
  }

  /** Element i of the list with `r` inserted after position k. */
  lemma InsertedAt(l: seq<Region>, k: nat, r: Region, i: nat)
    requires k < |l| && i <= |l|
    ensures (l[..k + 1] + [r] + l[k + 1..])[i] == if i <= k then l[i] else if i == k + 1 then r else l[i - 1]
  {
  }

  /** Inserting after position k gives an ordered list exactly when the region fits between its neighbours. */
  lemma InsertAt(d: Direction, l: seq<Region>, k: nat, r: Region)
    requires Ordered(d, l) && k < |l|
    ensures Ordered(d, l[..k + 1] + [r] + l[k + 1..]) <==>
            0 < r.size && Hi(d, l[k]) <= Lo(d, r) && Hi(d, r) <= (if k + 1 < |l| then Lo(d, l[k + 1]) else Limit(d))
  {
    var m := l[..k + 1] + [r] + l[k + 1..];
    InsertedAt(l, k, r, k);
    InsertedAt(l, k, r, k + 1);
    if k + 1 < |l| { InsertedAt(l, k, r, k + 2); }
    if 0 < r.size && Hi(d, l[k]) <= Lo(d, r) && Hi(d, r) <= (if k + 1 < |l| then Lo(d, l[k + 1]) else Limit(d)) {
      InsertFits(d, l, k, r);
    }
  }

  lemma InsertFits(d: Direction, l: seq<Region>, k: nat, r: Region)
    requires Ordered(d, l) && k < |l|
    requires 0 < r.size && Hi(d, l[k]) <= Lo(d, r) && Hi(d, r) <= (if k + 1 < |l| then Lo(d, l[k + 1]) else Limit(d))
    ensures Ordered(d, l[..k + 1] + [r] + l[k + 1..])
  {
    var m := l[..k + 1] + [r] + l[k + 1..];
    forall i | 0 <= i < |m|
      ensures 0 <= Lo(d, m[i]) && 0 < m[i].size && Hi(d, m[i]) <= Limit(d)
    {
      InsertedAt(l, k, r, i);
    }
    forall i, j | 0 <= i < j < |m|
      ensures Hi(d, m[i]) <= Lo(d, m[j])
    {
      InsertedAt(l, k, r, i);
      InsertedAt(l, k, r, j);
      InsertPair(d, l, k, r, i, j);
    }
  }

  lemma InsertPair(d: Direction, l: seq<Region>, k: nat, r: Region, i: nat, j: nat)
    requires Ordered(d, l) && k < |l| && i < j <= |l|
    requires 0 < r.size && Hi(d, l[k]) <= Lo(d, r) && Hi(d, r) <= (if k + 1 < |l| then Lo(d, l[k + 1]) else Limit(d))
    ensures var a := if i <= k then l[i] else if i == k + 1 then r else l[i - 1];
            var b := if j <= k then l[j] else if j == k + 1 then r else l[j - 1];
            Hi(d, a) <= Lo(d, b)
  {
    if j == k + 1 && i < k { assert Hi(d, l[i]) <= Lo(d, l[k]); }
    if i == k + 1 && j > k + 2 { assert Hi(d, l[k + 1]) <= Lo(d, l[j - 1]); }
  }

  /** With room, the search stops at the first true gap, or at the end. */
  lemma RoomPlaces(d: Direction, l: seq<Region>, size: nat)
    requires Ordered(d, l) && 0 < size && l != [] && Room(d, l, size)
    ensures var k := Stop(d, l, size, 0);
            && Hi(d, l[k]) < Limit(d) && Hi(d, l[k]) + size <= (if k + 1 < |l| then Lo(d, l[k + 1]) else Limit(d))
            && forall i :: 0 <= i < k ==> !TrueGap(d, l, size, i)
  {
    hide Ordered, GapFits, Room, TrueGap;
    var k := Stop(d, l, size, 0);
    forall i | 0 <= i < k
      ensures !TrueGap(d, l, size, i)
    {
      GapTest(d, l, size, i);
    }
    StopHasRoom(d, l, size, k);
  }

  lemma StopHasRoom(d: Direction, l: seq<Region>, size: nat, k: nat)
    requires Ordered(d, l) && 0 < size && Room(d, l, size) && k < |l|
    requires k + 1 < |l| ==> GapFits(d, l[k], size, l[k + 1])
    requires forall i :: 0 <= i < k ==> !TrueGap(d, l, size, i)
    ensures Hi(d, l[k]) < Limit(d) && Hi(d, l[k]) + size <= (if k + 1 < |l| then Lo(d, l[k + 1]) else Limit(d))
  {
    if k + 1 < |l| {
      GapTest(d, l, size, k);
      if !TrueGap(d, l, size, k) {
        RoomAhead(d, l, size, k);
      }
    } else {
      assert forall i :: TrueGap(d, l, size, i) ==> i < k;
    }
  }

  /** Room that is not a gap up to k lies beyond the end of l[k], so adding `size` there does not reach the limit. */
  lemma RoomAhead(d: Direction, l: seq<Region>, size: nat, k: nat)
    requires Ordered(d, l) && 0 < size && Room(d, l, size) && k + 1 < |l|
    requires forall i :: 0 <= i <= k ==> !TrueGap(d, l, size, i)
    ensures Hi(d, l[k]) + size < Limit(d)
  {
    if i :| TrueGap(d, l, size, i) {
      assert k < i;
    } else {
      assert Hi(d, l[k]) <= Lo(d, l[|l| - 1]) < Hi(d, l[|l| - 1]);
    }
  }

  /** Without room, wherever the search stops the new region overruns its successor or the address space. */
  lemma NoRoomOverruns(d: Direction, l: seq<Region>, size: nat)
    requires Ordered(d, l) && 0 < size && l != [] && !Room(d, l, size)
    ensures var k := Stop(d, l, size, 0);
            Hi(d, l[k]) + size > (if k + 1 < |l| then Lo(d, l[k + 1]) else Limit(d))
  {
    hide Ordered, GapFits;
    var k := Stop(d, l, size, 0);
    if k + 1 < |l| {
      NoGapThere(d, l, size, k);
    }
  }

  lemma NoGapThere(d: Direction, l: seq<Region>, size: nat, k: nat)
    requires !Room(d, l, size) && k + 1 < |l|
    ensures Hi(d, l[k]) + size > Lo(d, l[k + 1])
  {
    assert !TrueGap(d, l, size, k);
  }

  /** First fit: when there is room the region goes right behind the first region with a sufficient gap, or else right
      behind the last one; the others keep their places. */
  lemma FirstFit(d: Direction, l: seq<Region>, size: nat)
    requires Ordered(d, l) && 0 < size && l != [] && Room(d, l, size)
    ensures var k := Place(d, l, size) - 1;
            && 0 <= k < |l| && Lo(d, Insert(d, l, size)[k + 1]) == Hi(d, l[k]) && Insert(d, l, size)[k + 1].size == size
            && (k + 1 < |l| ==> TrueGap(d, l, size, k))
            && (forall i :: 0 <= i < k ==> !TrueGap(d, l, size, i))
            && Insert(d, l, size)[..k + 1] == l[..k + 1] && Insert(d, l, size)[k + 2..] == l[k + 1..]
  {
    hide Ordered, Room, Stop;
    RoomPlaces(d, l, size);
    AfterIs(d, l, Stop(d, l, size, 0));
  }

  /** Removing the region just inserted restores the list. */
  lemma RemoveUndoesInsert(d: Direction, l: seq<Region>, size: nat)
    ensures var k := Place(d, l, size);
            k < |Insert(d, l, size)| && Insert(d, l, size)[..k] + Insert(d, l, size)[k + 1..] == l
  {
  }

  lemma RemoveKeepsOrdered(d: Direction, l: seq<Region>, k: nat)
    requires Ordered(d, l) && k < |l|
    ensures Ordered(d, l[..k] + l[k + 1..])
  {
    var m := l[..k] + l[k + 1..];
    forall i, j | 0 <= i < j < |m|
      ensures Hi(d, m[i]) <= Lo(d, m[j])
    {
      assert m[i] == l[if i < k then i else i + 1] && m[j] == l[if j < k then j else j + 1];
    }
    forall i | 0 <= i < |m|
      ensures 0 <= Lo(d, m[i]) && 0 < m[i].size && Hi(d, m[i]) <= Limit(d)
    {
      assert m[i] == l[if i < k then i else i + 1];
    }
  }
}
