/** vmm_init_direct_mapping: all of physical memory in the upper half, in large pages, through a new root. */
module DirectMapping {
  import opened Basics
  import opened PageTables
  import opened PageMapping
  import opened AddressSpaces
  import opened VmallocPages

  const DIRECT_OFFSET: nat := 0xFFFF_8000_0000_0000

  /** Large pages that fit between DIRECT_OFFSET and top-level slot 511. */
  const SLOTS: nat := 255 * 0x4_0000

  /** The indices of the virtual page i1 in the direct mapping of large page k. */
  function DirectVA(k: nat, i1: nat): (va: VA)
    requires k < SLOTS && i1 < ENTRIES
    ensures Proper(va) && KERNEL_HALF <= va.i4 < 511
  {
    VA(256 + k / 0x4_0000, (k / 512) % 512, k % 512, i1)
  }

  /** They are the indices of physical address plus DIRECT_OFFSET. */
  lemma DirectIndices(k: nat, i1: nat)
    requires k < SLOTS && i1 < ENTRIES
    ensures DirectVA(k, i1) == PageVA((k * LARGE_PAGE_SIZE + i1 * PAGE_SIZE + DIRECT_OFFSET) / PAGE_SIZE)
  {
    var p := k * 512 + i1 + 0xF_FFF8_0000_0000;
    assert k * LARGE_PAGE_SIZE + i1 * PAGE_SIZE + DIRECT_OFFSET == p * PAGE_SIZE;
    assert p * PAGE_SIZE / PAGE_SIZE == p;
    DirectDigits(k, i1, p);
  }

  lemma DirectDigits(k: nat, i1: nat, p: nat)
    requires k < SLOTS && i1 < ENTRIES && p == k * 512 + i1 + 0xF_FFF8_0000_0000
    ensures DirectVA(k, i1) == PageVA(p)
  {
    assert p / 512 == k + 0x7FF_FC00_0000;
    assert p / 0x4_0000 == k / 512 + 0x3_FFFE_0000;
    assert p / 0x800_0000 == k / 0x4_0000 + 0x1FF_FF00;
  }

  lemma DirectInjective(k: nat, j: nat, i1: nat, j1: nat)
    requires k < SLOTS && j < SLOTS && i1 < ENTRIES && j1 < ENTRIES
    requires DirectVA(k, i1).i4 == DirectVA(j, j1).i4 && DirectVA(k, i1).i3 == DirectVA(j, j1).i3 && DirectVA(k, i1).i2 == DirectVA(j, j1).i2
    ensures k == j
  {
    assert k / 0x4_0000 == (k / 512) / 512 && j / 0x4_0000 == (j / 512) / 512;
  }

  // ---------- the page-directory entry of an address ----------

  /** The entry that decides about a large page: the page-directory entry, or what stops the walk above it. */
  function PdEntry(mem: map<nat, seq<Entry>>, level: nat, t: nat, va: VA): Entry
    decreases level
  {
    var e := At(mem, t, Idx(va, level));
    if level <= 2 || !e.present || e.bit7 then e else PdEntry(mem, level - 1, e.frame, va)
  }

  /** An address without a page-directory entry can be mapped with a large page. */
  lemma {:induction false} EmptyPd(mem: map<nat, seq<Entry>>, level: nat, t: nat, va: VA)
    requires 2 <= level && !PdEntry(mem, level, t, va).present
    ensures NoHuge(mem, level, t, va, 2)
    ensures PathTable(mem, level, t, va, 2).Some? ==> !At(mem, PathTable(mem, level, t, va, 2).value, va.i2).present
    decreases level
  {
    if level > 2 && At(mem, t, Idx(va, level)).present {
      EmptyPd(mem, level - 1, At(mem, t, Idx(va, level)).frame, va);
    }
  }

  /** Linking a cleared table into an empty slot above the page directories leaves every such entry empty or as it was. */
  lemma {:induction false} PdLink(v: Vm, m': map<nat, seq<Entry>>, s: nat, k: nat, level: nat, t: nat, va: VA)
    requires TablesOK(v) && IsTable(v, t, level) && Proper(va) && 2 <= level
    requires s in v.roles && v.roles[s].level >= 3 && k < ENTRIES && !At(v.mem, s, k).present
    requires !At(m', s, k).bit7 && forall j :: At(m', At(m', s, k).frame, j) == ZERO
    requires forall x, j :: x in v.roles && !(x == s && j == k) ==> At(m', x, j) == At(v.mem, x, j)
    ensures PdEntry(m', level, t, va).present == PdEntry(v.mem, level, t, va).present
    decreases level
  {
    var i := Idx(va, level);
    if t == s && i == k {
      assert level >= 3;
      if At(m', s, k).present { assert PdEntry(m', level - 1, At(m', s, k).frame, va) == ZERO; }
    } else {
      assert At(m', t, i) == At(v.mem, t, i);
      if level > 2 && At(v.mem, t, i).present && !At(v.mem, t, i).bit7 {
        assert Points(v, t, i) && ChildOK(v, t, i);
        PdLink(v, m', s, k, level - 1, At(v.mem, t, i).frame, va);
      }
    }
  }

  lemma EnsurePd(v: Vm, t: nat, i: nat, r: nat, va: VA)
    requires CanEnsure(v, t, i, false) && v.roles[t].level >= 3 && IsRoot(v, r) && Proper(va)
    ensures PdEntry(Ensure(v, t, i, false).mem, 4, r, va).present == PdEntry(v.mem, 4, r, va).present
  {
    EnsureAt(v, t, i, false);
    var v' := Ensure(v, t, i, false);
    if !At(v.mem, t, i).present {
      assert forall j :: At(v'.mem, Lowest(v.free), j) == ZERO;
      hide Ensure, Lowest, UserReady, PdEntry;
      PdLink(v, v'.mem, t, i, 4, r, va);
    }
  }

  lemma {:induction false} PreparePd(v: Vm, level: nat, t: nat, va0: VA, r: nat, va: VA)
    requires CanPrepare(v, level, t, va0, 2, false) && IsRoot(v, r) && Proper(va)
    ensures PdEntry(Prepare(v, level, t, va0, 2, false).0.mem, 4, r, va).present == PdEntry(v.mem, 4, r, va).present
    decreases level
  {
    hide VmInv, NoHuge, UserReady, PdEntry, Lowest;
    if level > 2 {
      PrepareStep(v, level, t, va0, 2, false);
      var i := Idx(va0, level);
      EnsurePd(v, t, i, r, va);
      EnsureSound(v, t, i, false);
      var v1 := Ensure(v, t, i, false);
      hide Ensure;
      PreparePd(v1, level - 1, At(v1.mem, t, i).frame, va0, r, va);
    }
  }

  /** Writing a page-directory entry. */
  lemma {:induction false} PdWrite(v: Vm, m': map<nat, seq<Entry>>, s: nat, k: nat, level: nat, t: nat, va: VA)
    requires TablesOK(v) && IsTable(v, t, level) && Proper(va) && 2 <= level && IsTable(v, s, 2) && k < ENTRIES
    requires forall x, j :: x in v.roles && !(x == s && j == k) ==> At(m', x, j) == At(v.mem, x, j)
    ensures PdEntry(m', level, t, va) == if PathTable(v.mem, level, t, va, 2) == Some(s) && va.i2 == k then At(m', s, k) else PdEntry(v.mem, level, t, va)
    decreases level
  {
    var i := Idx(va, level);
    if level > 2 {
      assert At(m', t, i) == At(v.mem, t, i);
      if At(v.mem, t, i).present && !At(v.mem, t, i).bit7 {
        assert Points(v, t, i) && ChildOK(v, t, i);
        PdWrite(v, m', s, k, level - 1, At(v.mem, t, i).frame, va);
      }
    }
  }

  /** A large mapping fills the page-directory entry of its own address and of no other through the same root. */
  lemma MapHugePd(v: Vm, root: nat, frame: nat, va0: VA, va: VA)
    requires CanMap(v, root, frame, va0, Huge, WRITABLE) && Proper(va)
    requires PdEntry(MapPage(v, root, frame, va0, Huge, WRITABLE).mem, 4, root, va).present && !PdEntry(v.mem, 4, root, va).present
    ensures va.i4 == va0.i4 && va.i3 == va0.i3 && va.i2 == va0.i2
  {
    MapPrepared(v, root, frame, va0, Huge, WRITABLE);
    var (v1, s) := Prepare(v, 4, root, va0, 2, false);
    PreparePd(v, 4, root, va0, root, va);
    LeafKeepsInv(v1, s, va0.i2, LeafEntry(frame, Huge, WRITABLE));
    hide Prepare, NoHuge, UserReady, PdEntry, PathTable, Extends, SameTranslations;
    assert IsRoot(v1, root);
    PdWrite(v1, Put(v1.mem, s, va0.i2, LeafEntry(frame, Huge, WRITABLE)), s, va0.i2, 4, root, va);
    Reach(v1, root, va0, root, va, 2, s);
    assert Idx(va, 4) == va.i4 && Idx(va0, 4) == va0.i4 && Idx(va, 3) == va.i3 && Idx(va0, 3) == va0.i3;
  }

  // ---------- the loop ----------

  ghost predicate CanMapNext(v: Vm, n: nat, k: nat) {
    k < SLOTS && CanMap(v, n, k * 512, DirectVA(k, 0), Huge, WRITABLE)
  }

  /** The first k large pages mapped, one after the other. */
  ghost function DirectMap(v: Vm, n: nat, k: nat): Vm {
    if k == 0 then v
    else
      var w := DirectMap(v, n, k - 1);
      if CanMapNext(w, n, k - 1) then MapPage(w, n, (k - 1) * 512, DirectVA(k - 1, 0), Huge, WRITABLE) else w
  }

  /** The large pages from k on have no page-directory entry yet. */
  ghost predicate RestEmpty(v: Vm, n: nat, k: nat) {
    forall j: nat :: k <= j < SLOTS ==> !PdEntry(v.mem, 4, n, DirectVA(j, 0)).present
  }

  predicate Direct(va: VA, k: nat) {
    exists j: nat :: j < k && IsDirect(va, j)
  }

  predicate IsDirect(va: VA, j: nat) { j < SLOTS && va.i1 < ENTRIES && va == DirectVA(j, va.i1) }

  ghost predicate DirectMapped(v: Vm, n: nat, k: nat) {
    forall va, j: nat :: j < k && IsDirect(va, j) ==> Translate(v, n, va) == Some(Mapping(j * 512 + va.i1, true, false, false, 0))
  }

  ghost predicate OthersKept(v: Vm, w: Vm, n: nat, k: nat) {
    forall va :: Proper(va) && !Direct(va, k) ==> Translate(w, n, va) == Translate(v, n, va)
  }

  ghost predicate DirectDone(v: Vm, w: Vm, n: nat, k: nat) {
    && VmInv(w) && IsRoot(w, n) && RestEmpty(w, n, k) && DirectMapped(w, n, k) && OthersKept(v, w, n, k)
    && PathLeft(w, n, k) && |w.free| + DirectTables(k) >= |v.free|
  }

  /** Tables for the first k large pages: one for each top-level slot and one for each gigabyte begun. */
  function DirectTables(k: nat): nat { (k + 0x3_FFFF) / 0x4_0000 + (k + 511) / 512 }

  /** The path to the large page mapped last is complete. */
  ghost predicate PathLeft(v: Vm, n: nat, k: nat) {
    0 < k <= SLOTS ==> PathTable(v.mem, 4, n, DirectVA(k - 1, 0), 2).Some?
  }

  function NewDirect(k: nat): nat { (if k % 0x4_0000 == 0 then 1 else 0) + (if k % 512 == 0 then 1 else 0) }

  lemma DirectTablesNext(k: nat)
    ensures DirectTables(k + 1) == DirectTables(k) + NewDirect(k)
  {
    CeilNext(k / 512, k % 512, 512);
    CeilNext(k / 0x4_0000, k % 0x4_0000, 0x4_0000);
    assert k == k / 512 * 512 + k % 512 && k == k / 0x4_0000 * 0x4_0000 + k % 0x4_0000;
  }

  lemma CeilNext(q: nat, r: nat, n: nat)
    requires r < n && (n == 512 || n == 0x4_0000)
    ensures (q * n + r + n) / n == (q * n + r + n - 1) / n + if r == 0 then 1 else 0
  {
  }

  lemma DirectShare(k: nat)
    requires 0 < k < SLOTS
    ensures forall l :: 2 + NewDirect(k) < l <= 4 ==> Idx(DirectVA(k, 0), l) == Idx(DirectVA(k - 1, 0), l)
  {
    assert k % 0x4_0000 == 0 ==> k % 512 == 0;
    assert k % 512 != 0 ==> k / 512 == (k - 1) / 512;
    assert k % 0x4_0000 != 0 ==> k / 0x4_0000 == (k - 1) / 0x4_0000;
  }

  /** The tables that large page k still misses. */
  lemma DirectMissing(w: Vm, n: nat, k: nat)
    requires PathLeft(w, n, k) && k < SLOTS
    ensures Missing(w.mem, 4, n, DirectVA(k, 0), 2) <= NewDirect(k)
  {
    hide DirectVA, Missing, PathTable;
    if 0 < k {
      DirectShare(k);
      MissingBeside(w.mem, 4, n, DirectVA(k - 1, 0), DirectVA(k, 0), 2, NewDirect(k));
    } else {
      MissingAtMost(w.mem, 4, n, DirectVA(0, 0));
    }
  }

  lemma MissingAtMost(mem: map<nat, seq<Entry>>, level: nat, t: nat, va: VA)
    requires level >= 2
    ensures Missing(mem, level, t, va, 2) <= level - 2
  {
  }

  lemma NextMappable(v: Vm, w: Vm, n: nat, k: nat)
    requires DirectDone(v, w, n, k) && k < SLOTS && |v.free| >= DirectTables(k + 1)
    ensures CanMapNext(w, n, k)
  {
    hide VmInv, Translate, PdEntry, NoHuge, PathTable, DirectMapped, OthersKept, PathLeft, Missing, DirectTables, NewDirect;
    DirectTablesNext(k);
    DirectMissing(w, n, k);
    EmptyPd(w.mem, 4, n, DirectVA(k, 0));
  }

  /** One large page more. */
  lemma DirectNext(v: Vm, w: Vm, n: nat, k: nat)
    requires DirectDone(v, w, n, k) && CanMapNext(w, n, k)
    ensures DirectDone(v, MapPage(w, n, k * 512, DirectVA(k, 0), Huge, WRITABLE), n, k + 1)
  {
    hide VmInv, Translate, PdEntry, MapPage, CanMap, RestEmpty, DirectMapped, OthersKept, DirectVA, Shares, Missing, DirectTables, NewDirect;
    DirectTablesNext(k);
    DirectMissing(w, n, k);
    MapLeavesPath(w, n, k * 512, DirectVA(k, 0), Huge, WRITABLE);
    var va0 := DirectVA(k, 0);
    var w' := MapPage(w, n, k * 512, va0, Huge, WRITABLE);
    MapKeepsInv(w, n, k * 512, va0, Huge, WRITABLE);
    MapAccounts(w, n, k * 512, va0, Huge, WRITABLE);
    RestNext(w, n, k);
    PageMapped(w, n, k);
    MappedNext(w, w', n, k);
    KeptNext(v, w, w', n, k);
  }

  lemma RestNext(w: Vm, n: nat, k: nat)
    requires RestEmpty(w, n, k) && CanMapNext(w, n, k)
    ensures RestEmpty(MapPage(w, n, k * 512, DirectVA(k, 0), Huge, WRITABLE), n, k + 1)
  {
    hide PdEntry, MapPage, CanMap, DirectVA;
    var w' := MapPage(w, n, k * 512, DirectVA(k, 0), Huge, WRITABLE);
    forall j: nat | k + 1 <= j < SLOTS
      ensures !PdEntry(w'.mem, 4, n, DirectVA(j, 0)).present
    {
      if PdEntry(w'.mem, 4, n, DirectVA(j, 0)).present {
        MapHugePd(w, n, k * 512, DirectVA(k, 0), DirectVA(j, 0));
        DirectInjective(k, j, 0, 0);
      }
    }
  }

  /** Mapping large page k changes what the new root shows in exactly the 512 pages of k. */
  ghost predicate OnlyPage(w: Vm, w': Vm, n: nat, k: nat) {
    forall va :: Proper(va) ==>
      Translate(w', n, va) == if IsDirect(va, k) then Some(Mapping(k * 512 + va.i1, true, false, false, 0)) else Translate(w, n, va)
  }

  lemma PageMapped(w: Vm, n: nat, k: nat)
    requires CanMapNext(w, n, k)
    ensures OnlyPage(w, MapPage(w, n, k * 512, DirectVA(k, 0), Huge, WRITABLE), n, k)
  {
    hide Translate, MapPage, CanMap, VmInv;
    var va0 := DirectVA(k, 0);
    var w' := MapPage(w, n, k * 512, va0, Huge, WRITABLE);
    MapShared(w, n, k * 512, va0, Huge, WRITABLE);
    forall va | Proper(va)
      ensures Translate(w', n, va) == if IsDirect(va, k) then Some(Mapping(k * 512 + va.i1, true, false, false, 0)) else Translate(w, n, va)
    {
      assert IsRoot(w, n) by { RootHere(w, n, k); }
      MapRefines(w, n, k * 512, va0, Huge, WRITABLE, n, va);
      assert Covers(va0, Huge, va) <==> IsDirect(va, k);
    }
  }

  lemma RootHere(w: Vm, n: nat, k: nat)
    requires CanMapNext(w, n, k)
    ensures IsRoot(w, n)
  {
  }

  lemma MappedNext(w: Vm, w': Vm, n: nat, k: nat)
    requires DirectMapped(w, n, k) && OnlyPage(w, w', n, k)
    ensures DirectMapped(w', n, k + 1)
  {
    hide Translate;
    forall va, j: nat | j < k + 1 && IsDirect(va, j)
      ensures Translate(w', n, va) == Some(Mapping(j * 512 + va.i1, true, false, false, 0))
    {
      if IsDirect(va, k) { DirectInjective(k, j, va.i1, va.i1); }
    }
  }

  lemma KeptNext(v: Vm, w: Vm, w': Vm, n: nat, k: nat)
    requires OthersKept(v, w, n, k) && OnlyPage(w, w', n, k)
    ensures OthersKept(v, w', n, k + 1)
  {
    hide Translate, IsDirect;
    forall va | Proper(va) && !Direct(va, k + 1)
      ensures Translate(w', n, va) == Translate(v, n, va)
    {
      assert !IsDirect(va, k) && !Direct(va, k);
    }
  }

  lemma {:induction false} DirectMapSound(v: Vm, n: nat, k: nat)
    requires DirectDone(v, v, n, 0) && k <= SLOTS && |v.free| >= DirectTables(k)
    ensures DirectDone(v, DirectMap(v, n, k), n, k)
  {
    hide DirectDone, MapPage, CanMapNext, DirectTables;
    if k > 0 {
      DirectTablesNext(k - 1);
      DirectMapSound(v, n, k - 1);
      var w := DirectMap(v, n, k - 1);
      NextMappable(v, w, n, k - 1);
      DirectNext(v, w, n, k - 1);
    }
  }

  function LargePages(maxAddr: nat): nat { (maxAddr + LARGE_PAGE_SIZE - 1) / LARGE_PAGE_SIZE }

  /** The loop has turns left exactly while there are large pages left. */
  lemma LargeTurn(k: nat, maxAddr: nat)
    ensures k * LARGE_PAGE_SIZE < maxAddr <==> k < LargePages(maxAddr)
  {
  }

  /** Physical page x lies in a large page that begins below maxAddr. */
  predicate InLargePages(x: nat, maxAddr: nat) { x / 512 * LARGE_PAGE_SIZE < maxAddr }

  /** Where physical page x appears. */
  function PageAtOffset(x: nat): VA { PageVA((x * PAGE_SIZE + DIRECT_OFFSET) / PAGE_SIZE) }

  /** A root that shows nothing below slot 511 is ready for the loop. */
  lemma FreshRoot(v: Vm, cur: nat)
    requires VmInv(v) && IsRoot(v, cur) && v.free != {}
    ensures var (v1, n) := CreateRoot(v, cur, 511); DirectDone(v1, v1, n, 0)
  {
    hide CreateRoot, VmInv, Translate;
    CreateKeepsInv(v, cur, 511);
    CreateAt(v, cur, 511);
    var (v1, n) := CreateRoot(v, cur, 511);
    forall j: nat | j < SLOTS
      ensures !PdEntry(v1.mem, 4, n, DirectVA(j, 0)).present
    {
      assert At(v1.mem, n, DirectVA(j, 0).i4) == ZERO;
    }
  }

  /** After vmm_init_direct_mapping every page below `maxAddr`, rounded up to 2 MB, is the translation of its address plus
      DIRECT_OFFSET; slot 511 shows what it showed before; and nothing else is mapped. */
  lemma DirectMappingSound(v: Vm, cur: nat, maxAddr: nat, va: VA)
    requires VmInv(v) && IsRoot(v, cur) && LargePages(maxAddr) <= SLOTS && |v.free| >= 1 + DirectTables(LargePages(maxAddr)) && Proper(va)
    ensures var (v1, n) := CreateRoot(v, cur, 511);
            var w := DirectMap(v1, n, LargePages(maxAddr));
            && VmInv(w) && IsRoot(w, n)
            && (forall x: nat :: InLargePages(x, maxAddr) && va == PageAtOffset(x) ==>
                  Translate(w, n, va) == Some(Mapping(x, true, false, false, 0)))
            && (va.i4 == 511 ==> Translate(w, n, va) == Translate(v, cur, va))
            && (va.i4 != 511 && (forall x: nat :: InLargePages(x, maxAddr) ==> va != PageAtOffset(x)) ==> Translate(w, n, va) == None)
  {
    hide VmInv, Translate, CreateRoot, PageAtOffset, DirectMap, RestEmpty, InLargePages, LargePages;
    var (v1, n) := CreateRoot(v, cur, 511);
    var k := LargePages(maxAddr);
    FreshRoot(v, cur);
    FreeLeft(v, cur);
    DirectMapSound(v1, n, k);
    CreateRefines(v, cur, 511, cur, va);
    if va.i4 == 511 {
      assert forall j: nat :: j < k ==> !IsDirect(va, j);
    }
    forall x: nat | InLargePages(x, maxAddr) && va == PageAtOffset(x)
      ensures Translate(DirectMap(v1, n, k), n, va) == Some(Mapping(x, true, false, false, 0))
    {
      DirectPage(x, maxAddr);
      assert IsDirect(va, x / 512);
    }
    if Direct(va, k) {
      var j: nat :| j < k && IsDirect(va, j);
      DirectPageOf(j, va.i1, maxAddr);
    }
  }

  lemma FreeLeft(v: Vm, cur: nat)
    requires VmInv(v) && IsRoot(v, cur) && v.free != {}
    ensures |CreateRoot(v, cur, 511).0.free| == |v.free| - 1
  {
    hide VmInv;
    CreateAt(v, cur, 511);
  }

  lemma DirectPage(x: nat, maxAddr: nat)
    requires InLargePages(x, maxAddr) && LargePages(maxAddr) <= SLOTS
    ensures x / 512 < LargePages(maxAddr) && PageAtOffset(x) == DirectVA(x / 512, x % 512) && x == x / 512 * 512 + x % 512
  {
    LargeTurn(x / 512, maxAddr);
    DirectIndices(x / 512, x % 512);
    assert x / 512 * LARGE_PAGE_SIZE + x % 512 * PAGE_SIZE == x * PAGE_SIZE;
  }

  lemma DirectPageOf(j: nat, i1: nat, maxAddr: nat)
    requires j < LargePages(maxAddr) <= SLOTS && i1 < ENTRIES
    ensures InLargePages(j * 512 + i1, maxAddr) && PageAtOffset(j * 512 + i1) == DirectVA(j, i1)
  {
    LargeTurn(j, maxAddr);
    QuotientOfSum(j, i1);
    DirectIndices(j, i1);
    assert j * LARGE_PAGE_SIZE + i1 * PAGE_SIZE == (j * 512 + i1) * PAGE_SIZE;
  }

  lemma QuotientOfSum(j: nat, i1: nat)
    requires i1 < 512
    ensures (j * 512 + i1) / 512 == j
  {
  }
}
