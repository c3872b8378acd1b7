/** The page loops of vmalloc and vfree: mapping a range onto fresh frames, and taking it apart again. */
module VmallocPages {
  import opened Basics
  import opened PageTables
  import opened PageMapping
  import opened AddressSpaces

  /** The indices of a virtual page number. */
  function PageVA(p: nat): (va: VA)
    ensures Proper(va)
  {
    VA((p / 0x800_0000) % ENTRIES, (p / 0x4_0000) % ENTRIES, (p / ENTRIES) % ENTRIES, p % ENTRIES)
  }

  /** Within one canonical half, pages with the same indices are the same page. */
  lemma PageVAInjective(p: nat, q: nat)
    requires p / 0x10_0000_0000 == q / 0x10_0000_0000 && PageVA(p) == PageVA(q)
    ensures p == q
  {
    hide PageVA;
    Digits(p);
    Digits(q);
  }

  /** The indices are digits of the page number in base 512. */
  lemma Digits(p: nat)
    ensures var va := PageVA(p);
            p == (((p / 0x10_0000_0000 * ENTRIES + va.i4) * ENTRIES + va.i3) * ENTRIES + va.i2) * ENTRIES + va.i1
  {
    assert p == p / 512 * 512 + p % 512;
    Digit(p, 512);
    Digit(p, 0x4_0000);
    Digit(p, 0x800_0000);
  }

  lemma Digit(p: nat, n: nat)
    requires n == 512 || n == 0x4_0000 || n == 0x800_0000
    ensures p / n == p / (512 * n) * 512 + (p / n) % 512
  {
    assert (p / n) / 512 == p / (512 * n);
  }

  /** The pages p to p + n - 1 lie in the upper canonical half. */
  predicate KernelRange(p: nat, n: nat) {
    0xF_FFF8_0000_0000 <= p && p + n <= 0x10_0000_0000_0000
  }

  lemma KernelPage(p: nat, n: nat, j: nat, k: nat)
    requires KernelRange(p, n) && p <= j < p + n && p <= k < p + n
    ensures PageVA(j).i4 >= KERNEL_HALF && (PageVA(j) == PageVA(k) ==> j == k)
  {
    hide PageVA;
    UpperPage(j);
    UpperPage(k);
    if PageVA(j) == PageVA(k) { PageVAInjective(j, k); }
  }

  lemma UpperPage(j: nat)
    requires 0xF_FFF8_0000_0000 <= j < 0x10_0000_0000_0000
    ensures PageVA(j).i4 >= KERNEL_HALF && j / 0x10_0000_0000 == 0xFFFF
  {
    var h := j / 0x800_0000;
    assert 0x1FF_FF00 <= h < 0x200_0000;
  }

  const WRITABLE: Flags := Flags(true, false, false, false, 0)

  /** No page of the range is mapped in any address space. */
  ghost predicate Unmapped(v: Vm, p: nat, n: nat) {
    forall r, q: nat :: IsRoot(v, r) && p <= q < p + n ==> Translate(v, r, PageVA(q)) == None
  }

  /** How many of the tables on the way to page q are not on the way to the page before it. */
  function NewLevels(q: nat): nat {
    if q % ENTRIES != 0 then 0 else if q % 0x4_0000 != 0 then 1 else if q % 0x800_0000 != 0 then 2 else 3
  }

  /** The tables to be created for page q once the pages from p up to it are mapped. */
  function FreshTables(v: Vm, root: nat, p: nat, q: nat): nat {
    var m := Missing(v.mem, 4, root, PageVA(q), 1);
    if p < q && NewLevels(q) < m then NewLevels(q) else m
  }

  /** The tables missing for the pages p to p + n - 1, each counted once. */
  function Tables(v: Vm, root: nat, p: nat, n: nat): nat {
    if n == 0 then 0 else Tables(v, root, p, n - 1) + FreshTables(v, root, p, p + n - 1)
  }

  lemma NewLevelsShare(q: nat)
    requires 0 < q
    ensures forall l :: 1 + NewLevels(q) < l <= 4 ==> Idx(PageVA(q), l) == Idx(PageVA(q - 1), l)
  {
    assert q % ENTRIES != 0 ==> q / ENTRIES == (q - 1) / ENTRIES;
    SameQuotient(q, 0x4_0000);
    SameQuotient(q, 0x800_0000);
    assert 0x4_0000 == 512 * 512 && 0x800_0000 == 512 * 0x4_0000;
    LargerQuotient(q);
  }

  lemma SameQuotient(q: nat, n: nat)
    requires 0 < q && (n == 0x4_0000 || n == 0x800_0000)
    ensures q % n != 0 ==> q / n == (q - 1) / n
  {
  }

  lemma LargerQuotient(q: nat)
    ensures q % 512 != 0 ==> q % 0x4_0000 != 0
    ensures q % 0x4_0000 != 0 ==> q % 0x800_0000 != 0
  {
    assert q == q / 0x4_0000 * 0x4_0000 + q % 0x4_0000 && q == q / 0x800_0000 * 0x800_0000 + q % 0x800_0000;
    Multiple(q / 0x4_0000 * 512, 512);
    Multiple(q / 0x800_0000 * 512, 0x4_0000);
  }

  lemma Multiple(x: nat, n: nat)
    requires n == 512 || n == 0x4_0000
    ensures x * n % n == 0
  {
  }

  /** What the loop of vmalloc needs: a valid state, an unmapped range, and a frame for each page and each missing table. */
  ghost predicate CanMapRange(v: Vm, root: nat, p: nat, n: nat) {
    && VmInv(v) && IsRoot(v, root) && KernelRange(p, n) && Unmapped(v, p, n)
    && |v.free| >= n + Tables(v, root, p, n)
  }

  /** One turn: take the lowest free frame and map the page to it. */
  ghost function MapOne(v: Vm, root: nat, p: nat): (Vm, nat) {
    if CanMapOne(v, root, p) then
      TakenFrame(v, root, p);
      var f := Lowest(v.free);
      (MapPage(v.(free := v.free - {f}), root, f, PageVA(p), Small, WRITABLE), f)
    else (v, 0)
  }

  ghost predicate CanMapOne(v: Vm, root: nat, p: nat) {
    && VmInv(v) && IsRoot(v, root) && KernelRange(p, 1) && Translate(v, root, PageVA(p)) == None
    && |v.free| >= 1 + Missing(v.mem, 4, root, PageVA(p), 1)
  }

  lemma FreeFewer(v: Vm, free: set<nat>)
    requires VmInv(v) && free <= v.free
    ensures VmInv(v.(free := free)) && forall r :: IsRoot(v.(free := free), r) <==> IsRoot(v, r)
  {
    assert forall t :: t in v.roles ==> t !in free;
    FreeChanged(v, free);
  }

  /** A page that is not mapped has no huge page on its path. */
  lemma {:induction false} UnmappedNoHuge(v: Vm, level: nat, t: nat, va: VA)
    requires TablesOK(v) && IsTable(v, t, level) && Proper(va) && Walk(v.mem, level, t, va) == None
    ensures NoHuge(v.mem, level, t, va, 1)
    decreases level
  {
    var i := Idx(va, level);
    if level > 1 && At(v.mem, t, i).present && !At(v.mem, t, i).bit7 {
      assert Points(v, t, i) && ChildOK(v, t, i);
      UnmappedNoHuge(v, level - 1, At(v.mem, t, i).frame, va);
    }
  }

  lemma TakenFrame(v: Vm, root: nat, p: nat)
    requires CanMapOne(v, root, p)
    ensures v.free != {}
    ensures var f := Lowest(v.free);
            CanMap(v.(free := v.free - {f}), root, f, PageVA(p), Small, WRITABLE)
  {
    var f := Lowest(v.free);
    FreeFewer(v, v.free - {f});
    UnmappedNoHuge(v, 4, root, PageVA(p));
    hide VmInv, Walk, NoHuge;
  }

  /** The mapped page leads to its frame; every other translation is as before; a root through which the page is
      mapped shares the top slot. */
  lemma MapOneSound(v: Vm, root: nat, p: nat)
    requires CanMapOne(v, root, p)
    ensures var (v', f) := MapOne(v, root, p);
            && VmInv(v') && (forall r :: IsRoot(v', r) <==> IsRoot(v, r))
            && f in v.free && f !in v'.roles && Accounts(v.(free := v.free - {f}), v', Missing(v.mem, 4, root, PageVA(p), 1))
            && PathTable(v'.mem, 4, root, PageVA(p), 1).Some?
            && (forall x, j :: Points(v, x, j) ==> KeepsSlot(v, v', x, j))
    ensures var (v', f) := MapOne(v, root, p);
            forall r, va :: IsRoot(v, r) && Proper(va) ==>
              Translate(v', r, va) == if va == PageVA(p) && Shares(v', root, r, PageVA(p).i4) then Some(Mapping(f, true, false, false, 0)) else Translate(v, r, va)
  {
    var f := Lowest(v.free);
    var w := v.(free := v.free - {f});
    FreeFewer(v, v.free - {f});
    TakenFrame(v, root, p);
    var va0 := PageVA(p);
    var v' := MapPage(w, root, f, va0, Small, WRITABLE);
    MapKeepsInv(w, root, f, va0, Small, WRITABLE);
    MapAccounts(w, root, f, va0, Small, WRITABLE);
    assert f !in v'.roles by {
      assert f !in w.free && f !in w.roles;
    }
    MapLeavesPath(w, root, f, va0, Small, WRITABLE);
    SamePoints(v, w);
    hide VmInv, MapPage, CanMap, Walk, NoHuge, Lowest, Accounts, PathTable, PageVA;
    forall r, va | IsRoot(v, r) && Proper(va)
      ensures Translate(v', r, va) == if va == va0 && Shares(v', root, r, va0.i4) then Some(Mapping(f, true, false, false, 0)) else Translate(v, r, va)
    {
      assert IsRoot(w, r);
      MapRefines(w, root, f, va0, Small, WRITABLE, r, va);
    }
  }

  lemma SamePoints(v: Vm, w: Vm)
    requires w.mem == v.mem && w.roles == v.roles
    ensures forall x, j :: Points(w, x, j) <==> Points(v, x, j)
  {
  }

  // ---------- the loop of vmalloc ----------

  /** Pages p to p + n - 1 mapped one after the other; the frames taken, in order. */
  ghost function MapRange(v: Vm, root: nat, p: nat, n: nat): (Vm, seq<nat>) {
    if n == 0 then (v, [])
    else
      var (v1, fs) := MapRange(v, root, p, n - 1);
      var (v2, f) := MapOne(v1, root, p + n - 1);
      (v2, fs + [f])
  }

  /** What the loop has achieved after n pages: page q leads to the frame taken for it, through exactly the roots that
      share the top slot, and nothing else has changed. */
  ghost predicate RangeMapped(v: Vm, v': Vm, root: nat, p: nat, n: nat, fs: seq<nat>) {
    && VmInv(v') && |fs| == n && SameRoots(v, v') && KeepsSlots(v, v')
    && PathsReady(v', root, p, n)
    && PagesLead(v, v', root, p, n, fs)
    && OthersSame(v, v', p, n)
  }

  ghost predicate SameRoots(v: Vm, v': Vm) {
    forall r :: IsRoot(v', r) <==> IsRoot(v, r)
  }

  ghost predicate PathsReady(v: Vm, root: nat, p: nat, n: nat) {
    forall q: nat :: p <= q < p + n ==> PathTable(v.mem, 4, root, PageVA(q), 1).Some?
  }

  ghost predicate PagesLead(v: Vm, v': Vm, root: nat, p: nat, n: nat, fs: seq<nat>)
    requires |fs| == n
  {
    forall r, q: nat :: IsRoot(v, r) && p <= q < p + n ==> PageLeads(v', root, r, p, fs, q)
  }

  ghost predicate OthersSame(v: Vm, v': Vm, p: nat, n: nat) {
    forall r, va :: IsRoot(v, r) && Proper(va) && !InRange(va, p, n) ==> Translate(v', r, va) == Translate(v, r, va)
  }

  ghost predicate InRange(va: VA, p: nat, n: nat) {
    exists q: nat :: p <= q < p + n && va == PageVA(q)
  }

  ghost predicate PageLeads(v: Vm, root: nat, r: nat, p: nat, fs: seq<nat>, q: nat)
    requires p <= q < p + |fs|
  {
    var m := Some(Mapping(fs[q - p], true, false, false, 0));
    && (r == root ==> Translate(v, r, PageVA(q)) == m)
    && (Translate(v, r, PageVA(q)) == None || (Translate(v, r, PageVA(q)) == m && Shares(v, root, r, PageVA(q).i4)))
  }

  /** The frames taken: distinct, free before, and now neither free nor tables; no other frame left the free set except
      to become a table. */
  ghost predicate FramesTaken(v: Vm, v': Vm, fs: seq<nat>) {
    && Distinct(fs)
    && (forall i :: 0 <= i < |fs| ==> fs[i] in v.free && fs[i] !in v'.roles)
    && v.roles.Keys <= v'.roles.Keys && v'.roles.Keys - v.roles.Keys <= v.free
    && FreeAccount(v, v', fs)
  }

  /** No more frames are gone than those of the pages and of the missing tables. */
  ghost predicate FramesLeft(v: Vm, v': Vm, root: nat, p: nat, n: nat) {
    |v'.free| + n + Tables(v, root, p, n) >= |v.free|
  }

  ghost predicate FreeAccount(v: Vm, v': Vm, fs: seq<nat>) {
    forall x :: x in v'.free <==> x in v.free && x !in fs && x !in v'.roles
  }

  ghost predicate NextUnmapped(v: Vm, v1: Vm, q: nat) {
    forall r :: IsRoot(v, r) ==> Translate(v1, r, PageVA(q)) == None
  }

  /** The tables that page q still misses once the pages before it are mapped. */
  lemma MissingInRange(v: Vm, v1: Vm, root: nat, p: nat, n: nat)
    requires VmInv(v) && IsRoot(v, root) && Translate(v, root, PageVA(p + n)) == None
    requires KeepsSlots(v, v1) && PathsReady(v1, root, p, n)
    ensures Missing(v1.mem, 4, root, PageVA(p + n), 1) <= FreshTables(v, root, p, p + n)
  {
    hide PageVA, KeepsSlots, UserClosed, Missing;
    UnmappedNoHuge(v, 4, root, PageVA(p + n));
    MissingKept(v, v1, 4, root, PageVA(p + n), 1);
    if 0 < n {
      var q := p + n;
      assert PathTable(v1.mem, 4, root, PageVA(q - 1), 1).Some?;
      NewLevelsShare(q);
      MissingBeside(v1.mem, 4, root, PageVA(q - 1), PageVA(q), 1, NewLevels(q));
    }
  }

  /** The next page of the range is not mapped yet, and there are frames for it. */
  lemma NextMappable(v: Vm, v1: Vm, root: nat, p: nat, n: nat, fs: seq<nat>)
    requires CanMapRange(v, root, p, n + 1) && RangeMapped(v, v1, root, p, n, fs) && FramesLeft(v, v1, root, p, n)
    ensures CanMapOne(v1, root, p + n) && NextUnmapped(v, v1, p + n)
    ensures Missing(v1.mem, 4, root, PageVA(p + n), 1) <= FreshTables(v, root, p, p + n)
  {
    hide VmInv, Translate, PathTable, PageVA, PageLeads, Missing, FreshTables;
    MissingInRange(v, v1, root, p, n);
    forall q: nat | p <= q < p + n
      ensures PageVA(q) != PageVA(p + n)
    {
      KernelPage(p, n + 1, q, p + n);
    }
    assert !InRange(PageVA(p + n), p, n);
  }

  /** Mapping a range. */
  lemma {:induction false} MapRangeSound(v: Vm, root: nat, p: nat, n: nat)
    requires CanMapRange(v, root, p, n)
    ensures var (v', fs) := MapRange(v, root, p, n);
            RangeMapped(v, v', root, p, n, fs) && FramesTaken(v, v', fs) && FramesLeft(v, v', root, p, n)
  {
    hide MapRange, RangeMapped, FramesTaken, FramesLeft, CanMapOne, VmInv, MapOne, Translate, CanMapRange, Missing, FreshTables;
    MapRangeTurn(v, root, p, n);
    if n == 0 {
      RangeEmpty(v, root, p);
    } else {
      ShorterRange(v, root, p, n);
      MapRangeSound(v, root, p, n - 1);
      var (v1, fs) := MapRange(v, root, p, n - 1);
      NextMappable(v, v1, root, p, n - 1, fs);
      RangeExtend(v, v1, root, p, n - 1, fs);
    }
  }

  lemma MapRangeTurn(v: Vm, root: nat, p: nat, n: nat)
    ensures MapRange(v, root, p, n) ==
            if n == 0 then (v, [])
            else
              var (v1, fs) := MapRange(v, root, p, n - 1);
              (MapOne(v1, root, p + n - 1).0, fs + [MapOne(v1, root, p + n - 1).1])
  {
  }

  lemma RangeEmpty(v: Vm, root: nat, p: nat)
    requires CanMapRange(v, root, p, 0)
    ensures RangeMapped(v, v, root, p, 0, []) && FramesTaken(v, v, []) && FramesLeft(v, v, root, p, 0)
  {
    assert v.roles.Keys - v.roles.Keys == {};
    assert forall x :: x in v.free ==> x !in v.roles;
    hide VmInv, Translate;
  }

  lemma ShorterRange(v: Vm, root: nat, p: nat, n: nat)
    requires CanMapRange(v, root, p, n) && n > 0
    ensures CanMapRange(v, root, p, n - 1) && VmInv(v) && IsRoot(v, root) && KernelRange(p, n)
  {
    hide VmInv, Translate;
  }

  lemma RangeExtend(v: Vm, v1: Vm, root: nat, p: nat, n: nat, fs: seq<nat>)
    requires VmInv(v) && IsRoot(v, root) && KernelRange(p, n + 1)
    requires RangeMapped(v, v1, root, p, n, fs) && FramesTaken(v, v1, fs) && CanMapOne(v1, root, p + n)
    requires NextUnmapped(v, v1, p + n) && FramesLeft(v, v1, root, p, n)
    requires Missing(v1.mem, 4, root, PageVA(p + n), 1) <= FreshTables(v, root, p, p + n)
    ensures var (v2, f) := MapOne(v1, root, p + n);
            RangeMapped(v, v2, root, p, n + 1, fs + [f]) && FramesTaken(v, v2, fs + [f]) && FramesLeft(v, v2, root, p, n + 1)
  {
    hide MapOne, VmInv, Translate, PageVA, FramesTaken, Accounts, RangeMapped, Shares, PathTable, Missing, FreshTables;
    MapOneSound(v1, root, p + n);
    var (v2, f) := MapOne(v1, root, p + n);
    var k := Missing(v1.mem, 4, root, PageVA(p + n), 1);
    FramesExtend(v, v1, v2, fs, f, k);
    FewerBy(v1, v2, f, k);
    assert KeepsSlots(v1, v2) && OneMapped(v1, v2, root, p + n, f);
    assert SameRoots(v1, v2) && IsRoot(v1, root);
    hide KeepsSlots, OneMapped, CanMapOne, SameRoots, NextUnmapped;
    RangeExtendPages(v, v1, v2, root, p, n, fs, f);
  }

  /** `v'` differs from `v` only in that page q leads to frame f. */
  ghost predicate OneMapped(v: Vm, v': Vm, root: nat, q: nat, f: nat) {
    forall r, va :: IsRoot(v, r) && Proper(va) ==>
      Translate(v', r, va) == if va == PageVA(q) && Shares(v', root, r, PageVA(q).i4) then Some(Mapping(f, true, false, false, 0)) else Translate(v, r, va)
  }

  lemma {:induction false} PathKept(v: Vm, v': Vm, level: nat, t: nat, va: VA)
    requires TablesOK(v) && KeepsSlots(v, v') && IsTable(v, t, level) && Proper(va) && PathTable(v.mem, level, t, va, 1).Some?
    ensures PathTable(v'.mem, level, t, va, 1) == PathTable(v.mem, level, t, va, 1)
    decreases level
  {
    var i := Idx(va, level);
    if level > 1 {
      assert Points(v, t, i) && ChildOK(v, t, i) && KeepsSlot(v, v', t, i);
      PathKept(v, v', level - 1, At(v.mem, t, i).frame, va);
    }
  }

  lemma PathTop(v: Vm, root: nat, va: VA)
    requires IsRoot(v, root) && Proper(va) && PathTable(v.mem, 4, root, va, 1).Some?
    ensures Points(v, root, va.i4) && Shares(v, root, root, va.i4)
  {
  }

  lemma SharesKept(v: Vm, v': Vm, root: nat, r: nat, i4: nat)
    requires KeepsSlots(v, v') && Points(v, root, i4) && Shares(v, root, r, i4)
    ensures Shares(v', root, r, i4)
  {
    assert KeepsSlot(v, v', root, i4) && KeepsSlot(v, v', r, i4);
  }

  lemma OldPageLeads(v1: Vm, v2: Vm, root: nat, r: nat, p: nat, fs: seq<nat>, q: nat, q1: nat, f: nat)
    requires p <= q < p + |fs| && PageLeads(v1, root, r, p, fs, q) && IsRoot(v1, r) && IsRoot(v1, root) && PageVA(q) != PageVA(q1)
    requires PathTable(v1.mem, 4, root, PageVA(q), 1).Some? && KeepsSlots(v1, v2) && OneMapped(v1, v2, root, q1, f)
    ensures PageLeads(v2, root, r, p, fs + [f], q)
  {
    hide PageVA, Translate;
    PathTop(v1, root, PageVA(q));
    if Shares(v1, root, r, PageVA(q).i4) { SharesKept(v1, v2, root, r, PageVA(q).i4); }
  }

  lemma NewPageLeads(v1: Vm, v2: Vm, root: nat, r: nat, p: nat, fs: seq<nat>, f: nat)
    requires var q := p + |fs|;
             IsRoot(v1, r) && IsRoot(v2, root) && OneMapped(v1, v2, root, q, f) && Translate(v1, r, PageVA(q)) == None
    requires PathTable(v2.mem, 4, root, PageVA(p + |fs|), 1).Some?
    ensures PageLeads(v2, root, r, p, fs + [f], p + |fs|)
  {
    hide PageVA, Translate;
    PathTop(v2, root, PageVA(p + |fs|));
  }

  lemma RangeExtendPages(v: Vm, v1: Vm, v2: Vm, root: nat, p: nat, n: nat, fs: seq<nat>, f: nat)
    requires RangeMapped(v, v1, root, p, n, fs) && KernelRange(p, n + 1) && IsRoot(v, root)
    requires VmInv(v2) && SameRoots(v1, v2) && KeepsSlots(v1, v2) && OneMapped(v1, v2, root, p + n, f)
    requires PathTable(v2.mem, 4, root, PageVA(p + n), 1).Some? && NextUnmapped(v, v1, p + n)
    ensures RangeMapped(v, v2, root, p, n + 1, fs + [f])
  {
    hide PathsReady, PagesLead, OthersSame, VmInv, KeepsSlots;
    assert IsRoot(v1, root);
    KeepsTransitive(v, v1, v2);
    PathsExtend(v1, v2, root, p, n);
    LeadsExtend(v, v1, v2, root, p, n, fs, f);
    OthersExtend(v, v1, v2, root, p, n, f);
  }

  lemma KeepsTransitive(v: Vm, v1: Vm, v2: Vm)
    requires KeepsSlots(v, v1) && KeepsSlots(v1, v2)
    ensures KeepsSlots(v, v2)
  {
    forall x, j | Points(v, x, j)
      ensures KeepsSlot(v, v2, x, j)
    {
      assert KeepsSlot(v, v1, x, j) && KeepsSlot(v1, v2, x, j);
    }
  }

  lemma PathsExtend(v1: Vm, v2: Vm, root: nat, p: nat, n: nat)
    requires VmInv(v1) && IsRoot(v1, root) && KeepsSlots(v1, v2) && PathsReady(v1, root, p, n)
    requires PathTable(v2.mem, 4, root, PageVA(p + n), 1).Some?
    ensures PathsReady(v2, root, p, n + 1)
  {
    hide PageVA, KeepsSlots, UserClosed;
    forall q: nat | p <= q < p + n + 1
      ensures PathTable(v2.mem, 4, root, PageVA(q), 1).Some?
    {
      if q < p + n { PathKept(v1, v2, 4, root, PageVA(q)); }
    }
  }

  lemma LeadsExtend(v: Vm, v1: Vm, v2: Vm, root: nat, p: nat, n: nat, fs: seq<nat>, f: nat)
    requires |fs| == n && KernelRange(p, n + 1) && IsRoot(v, root) && SameRoots(v, v1) && SameRoots(v1, v2)
    requires PathsReady(v1, root, p, n) && PagesLead(v, v1, root, p, n, fs) && NextUnmapped(v, v1, p + n)
    requires KeepsSlots(v1, v2) && OneMapped(v1, v2, root, p + n, f) && PathTable(v2.mem, 4, root, PageVA(p + n), 1).Some?
    ensures PagesLead(v, v2, root, p, n + 1, fs + [f])
  {
    hide PageVA, Translate, Shares, PageLeads, KeepsSlots, OneMapped, PathTable, Unmapped;
    forall r, q: nat | IsRoot(v, r) && p <= q < p + n + 1
      ensures PageLeads(v2, root, r, p, fs + [f], q)
    {
      LeadExtend(v, v1, v2, root, p, n, fs, f, r, q);
    }
  }

  lemma LeadExtend(v: Vm, v1: Vm, v2: Vm, root: nat, p: nat, n: nat, fs: seq<nat>, f: nat, r: nat, q: nat)
    requires |fs| == n && KernelRange(p, n + 1) && IsRoot(v, root) && SameRoots(v, v1) && SameRoots(v1, v2)
    requires PathsReady(v1, root, p, n) && PagesLead(v, v1, root, p, n, fs) && NextUnmapped(v, v1, p + n)
    requires KeepsSlots(v1, v2) && OneMapped(v1, v2, root, p + n, f) && PathTable(v2.mem, 4, root, PageVA(p + n), 1).Some?
    requires IsRoot(v, r) && p <= q < p + n + 1
    ensures PageLeads(v2, root, r, p, fs + [f], q)
  {
    hide PageVA, Translate, Shares, PageLeads, KeepsSlots, OneMapped, PathTable;
    assert IsRoot(v1, root) && IsRoot(v2, root) && IsRoot(v1, r);
    hide SameRoots;
    if q < p + n {
      KernelPage(p, n + 1, q, p + n);
      assert PageLeads(v1, root, r, p, fs, q) && PathTable(v1.mem, 4, root, PageVA(q), 1).Some?;
      hide PagesLead, PathsReady, NextUnmapped;
      OldPageLeads(v1, v2, root, r, p, fs, q, p + n, f);
    } else {
      NewPageLeads(v1, v2, root, r, p, fs, f);
    }
  }

  lemma OthersExtend(v: Vm, v1: Vm, v2: Vm, root: nat, p: nat, n: nat, f: nat)
    requires SameRoots(v, v1) && OthersSame(v, v1, p, n) && OneMapped(v1, v2, root, p + n, f)
    ensures OthersSame(v, v2, p, n + 1)
  {
    hide PageVA, Translate, InRange, OneMapped;
    forall r, va | IsRoot(v, r) && Proper(va) && !InRange(va, p, n + 1)
      ensures Translate(v2, r, va) == Translate(v, r, va)
    {
      OutsideLonger(va, p, n);
      assert IsRoot(v1, r);
      OneMappedAt(v1, v2, root, p + n, f, r, va);
    }
  }

  lemma OutsideLonger(va: VA, p: nat, n: nat)
    requires !InRange(va, p, n + 1)
    ensures !InRange(va, p, n) && va != PageVA(p + n)
  {
  }

  lemma OneMappedAt(v: Vm, v': Vm, root: nat, q: nat, f: nat, r: nat, va: VA)
    requires OneMapped(v, v', root, q, f) && IsRoot(v, r) && Proper(va) && va != PageVA(q)
    ensures Translate(v', r, va) == Translate(v, r, va)
  {
  }

  lemma FramesExtend(v: Vm, v1: Vm, v2: Vm, fs: seq<nat>, f: nat, k: nat)
    requires FramesTaken(v, v1, fs) && f in v1.free && f !in v2.roles
    requires Accounts(v1.(free := v1.free - {f}), v2, k)
    ensures FramesTaken(v, v2, fs + [f])
  {
    AccountExtend(v, v1, v2, fs, f, k);
    assert f !in fs;
    FramesDistinct(fs, f);
    RolesGrow(v, v1, v2, f, k);
    OldFrames(v, v1, v2, fs, f, k);
    hide FreeAccount, Distinct, Accounts;
  }

  lemma RolesGrow(v: Vm, v1: Vm, v2: Vm, f: nat, k: nat)
    requires Accounts(v1.(free := v1.free - {f}), v2, k) && v.roles.Keys <= v1.roles.Keys && v1.roles.Keys - v.roles.Keys <= v.free
    requires forall x :: x in v1.free ==> x in v.free
    ensures v.roles.Keys <= v2.roles.Keys && v2.roles.Keys - v.roles.Keys <= v.free
  {
    forall x | x in v2.roles.Keys - v.roles.Keys
      ensures x in v.free
    {
      if x !in v1.roles { assert x in v2.roles.Keys - v1.roles.Keys; }
    }
  }

  lemma OldFrames(v: Vm, v1: Vm, v2: Vm, fs: seq<nat>, f: nat, k: nat)
    requires FreeAccount(v, v1, fs) && forall i :: 0 <= i < |fs| ==> fs[i] in v.free && fs[i] !in v1.roles
    requires Accounts(v1.(free := v1.free - {f}), v2, k)
    ensures forall i :: 0 <= i < |fs| ==> fs[i] in v.free && fs[i] !in v2.roles
  {
    forall i | 0 <= i < |fs|
      ensures fs[i] !in v2.roles
    {
      assert fs[i] in fs && fs[i] !in v1.free;
      assert fs[i] !in v2.roles.Keys - v1.roles.Keys;
    }
  }

  lemma FewerBy(v1: Vm, v2: Vm, f: nat, k: nat)
    requires f in v1.free && Accounts(v1.(free := v1.free - {f}), v2, k)
    ensures |v2.free| + 1 + k == |v1.free|
  {
  }

  lemma AccountExtend(v: Vm, v1: Vm, v2: Vm, fs: seq<nat>, f: nat, k: nat)
    requires FreeAccount(v, v1, fs) && f in v1.free && f !in v2.roles && v1.roles.Keys <= v2.roles.Keys
    requires Accounts(v1.(free := v1.free - {f}), v2, k)
    ensures FreeAccount(v, v2, fs + [f])
    ensures forall x :: x in v1.free ==> x in v.free
  {
    forall x
      ensures x in v2.free <==> x in v.free && x !in fs + [f] && x !in v2.roles
    {
      FreeAfterOne(v1, v2, f, k, x);
      assert x in v1.free <==> x in v.free && x !in fs && x !in v1.roles;
    }
  }

  lemma FreeAfterOne(v1: Vm, v2: Vm, f: nat, k: nat, x: nat)
    requires v1.roles.Keys <= v2.roles.Keys && Accounts(v1.(free := v1.free - {f}), v2, k)
    ensures x in v2.free <==> x in v1.free && x != f && (x in v2.roles ==> x in v1.roles)
    ensures x in v1.roles ==> x in v2.roles
  {
  }

  lemma FramesDistinct(fs: seq<nat>, f: nat)
    requires Distinct(fs) && f !in fs
    ensures Distinct(fs + [f])
  {
  }
}
