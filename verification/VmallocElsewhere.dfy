/** vfree in another address space than the one in which the region was mapped. */
module VmallocElsewhere {
  import opened Basics
  import opened PageTables
  import opened PageMapping
  import opened AddressSpaces
  import opened VmallocPages
  import opened VmallocRuns
  import opened Sequences

  /** Two address spaces lead through the same top-level slots to the pages p to p + n - 1. */
  ghost predicate SharesPages(v: Vm, root: nat, root': nat, p: nat, n: nat) {
    forall q: nat :: p <= q < p + n ==> Shares(v, root, root', PageVA(q).i4)
  }

  /** A region is live in every address space that shares its slots. */
  lemma LiveElsewhere(v: Vm, root: nat, root': nat, p: nat, fs: seq<nat>)
    requires VmInv(v) && Live(v, root, p, fs) && IsRoot(v, root') && SharesPages(v, root, root', p, |fs|)
    ensures Live(v, root', p, fs)
  {
    hide PageVA, VmInv, Translate, PathTable, Shares, Distinct, FramesHeld, PageLeads;
    forall q: nat | p <= q < p + |fs|
      ensures PathTable(v.mem, 4, root', PageVA(q), 1).Some?
    {
      LiveAt(v, root, p, fs, q);
      SamePath(v, root, root', PageVA(q));
    }
    forall r, q: nat | IsRoot(v, r) && p <= q < p + |fs|
      ensures PageLeads(v, root', r, p, fs, q)
    {
      LiveAt(v, root, p, fs, q);
      SharesThrough(v, root, root', r, p, fs, q);
    }
  }

  lemma SamePath(v: Vm, root: nat, root': nat, va: VA)
    requires Shares(v, root, root', va.i4)
    requires PathTable(v.mem, 4, root, va, 1).Some?
    ensures PathTable(v.mem, 4, root', va, 1) == PathTable(v.mem, 4, root, va, 1)
  {
  }

  lemma SharesThrough(v: Vm, root: nat, root': nat, r: nat, p: nat, fs: seq<nat>, q: nat)
    requires VmInv(v) && IsRoot(v, root) && IsRoot(v, root') && IsRoot(v, r) && p <= q < p + |fs| && PageLeads(v, root, r, p, fs, q)
    requires Shares(v, root, root', PageVA(q).i4) && PathTable(v.mem, 4, root, PageVA(q), 1).Some?
    requires Translate(v, root, PageVA(q)) == Some(Mapping(fs[q - p], true, false, false, 0))
    ensures PageLeads(v, root', r, p, fs, q)
  {
    hide PageVA;
    var va := PageVA(q);
    PathTop(v, root, va);
    assert ChildOK(v, root, va.i4) && ChildOK(v, root', va.i4);
  }

  // ---------- a slot that is not shared ----------

  /** The tables are as `v` has them, apart from last-level entries; what is free does not matter. */
  ghost predicate SameSlots(v: Vm, u: Vm) {
    && VmInv(u.(free := {})) && u.roles == v.roles
    && forall x, j :: IsRoot(v, x) ==> At(u.mem, x, j) == At(v.mem, x, j)
  }

  lemma UnmapIgnoresFree(u: Vm, free: set<nat>, root: nat, va: VA)
    ensures UnmapPage(u.(free := free), root, va) == (UnmapPage(u, root, va).0.(free := free), UnmapPage(u, root, va).1)
  {
  }

  /** Unmapping any page through `root'` leaves what `root` shows of a page whose slot the two do not share. */
  lemma UnsharedStays(v: Vm, u: Vm, root: nat, root': nat, va: VA, va': VA)
    requires SameSlots(v, u) && IsRoot(v, root) && IsRoot(v, root') && Proper(va) && Proper(va')
    requires Points(v, root, va'.i4) && !Shares(v, root, root', va'.i4)
    ensures var w := UnmapPage(u, root', va).0;
            SameSlots(v, w) && Translate(w, root, va') == Translate(u, root, va')
  {
    var u0 := u.(free := {});
    UnmapIgnoresFree(u, {}, root', va);
    UnmapKeepsInv(u0, root', va);
    var w0 := UnmapPage(u0, root', va).0;
    hide UnmapPage, Translate, UserClosed;
    GetEntryFinds(u0, 4, root', va);
    UnmapRefines(u0, root', va, root, va');
    if s :| GetEntry(u0.mem, 4, root', va) == Some(s) {
      SlotUsed(u0, root', va);
      assert va.i4 == va'.i4 ==> Points(v, root', va'.i4);
      assert Idx(va', 4) == va'.i4 && Idx(va, 4) == va.i4;
    }
  }

  lemma SlotUsed(v: Vm, root: nat, va: VA)
    requires TablesOK(v) && IsRoot(v, root) && Proper(va) && GetEntry(v.mem, 4, root, va).Some?
    ensures Points(v, root, va.i4)
  {
    assert At(v.mem, root, va.i4).present;
  }

  /** The loop of vfree through `root'` leaves such a page mapped. */
  lemma {:induction false} UnsharedSurvives(v: Vm, root: nat, root': nat, p: nat, n: nat, va: VA)
    requires VmInv(v) && IsRoot(v, root) && IsRoot(v, root') && Proper(va) && Points(v, root, va.i4) && !Shares(v, root, root', va.i4)
    ensures SameSlots(v, UnmapRange(v, root', p, n)) && Translate(UnmapRange(v, root', p, n), root, va) == Translate(v, root, va)
    decreases n
  {
    hide VmInv, Translate, UnmapPage, PageVA, Shares;
    if n == 0 {
      StartSlots(v);
    } else {
      UnsharedSurvives(v, root, root', p, n - 1, va);
      var u := UnmapRange(v, root', p, n - 1);
      UnsharedStays(v, u, root, root', PageVA(p + n - 1), va);
      var (w, f) := UnmapPage(u, root', PageVA(p + n - 1));
      FreeIgnored(v, w, w.free + {f}, root, va);
    }
  }

  lemma StartSlots(v: Vm)
    requires VmInv(v)
    ensures SameSlots(v, v)
  {
    FreeChanged(v, {});
  }

  lemma FreeIgnored(v: Vm, w: Vm, free: set<nat>, root: nat, va: VA)
    requires SameSlots(v, w)
    ensures SameSlots(v, w.(free := free)) && Translate(w.(free := free), root, va) == Translate(w, root, va)
  {
    hide VmInv;
  }

  /** vfree in another address space frees exactly the region if and only if that address space shares the top-level slots of
      the region's pages. */
  lemma VfreeElsewhereIff(v: Vm, root: nat, p: nat, fs: seq<nat>, root': nat)
    requires VmInv(v) && Live(v, root, p, fs) && IsRoot(v, root')
    ensures RangeUnmapped(v, UnmapRange(v, root', p, |fs|), p, |fs|, fs) <==> SharesPages(v, root, root', p, |fs|)
  {
    hide VmInv, Translate, PageVA, UnmapRange, PathsReady, PagesLead, Shares, PathTable;
    if SharesPages(v, root, root', p, |fs|) {
      LiveElsewhere(v, root, root', p, fs);
      UnmapRangeSound(v, root', p, |fs|, fs);
    } else {
      var q: nat :| p <= q < p + |fs| && !Shares(v, root, root', PageVA(q).i4);
      LiveAt(v, root, p, fs, q);
      PathTop(v, root, PageVA(q));
      UnsharedSurvives(v, root, root', p, |fs|, PageVA(q));
      StillThere(v, UnmapRange(v, root', p, |fs|), root, p, fs, q);
    }
  }

  lemma StillThere(v: Vm, u: Vm, root: nat, p: nat, fs: seq<nat>, q: nat)
    requires IsRoot(v, root) && p <= q < p + |fs| && Translate(u, root, PageVA(q)).Some?
    ensures !RangeUnmapped(v, u, p, |fs|, fs)
  {
    hide VmInv, Translate, PageVA;
  }

  // ---------- an address space without the slot ----------

  /** Where the top-level slots are empty vfree finds no entry: it frees page 0 instead of the region's frames. */
  lemma {:induction false} VfreeWithoutSlot(v: Vm, root': nat, p: nat, n: nat)
    requires forall q: nat :: p <= q < p + n ==> !At(v.mem, root', PageVA(q).i4).present
    ensures UnmapRange(v, root', p, n) == if n == 0 then v else v.(free := v.free + {0})
    decreases n
  {
    hide PageVA;
    if n > 0 {
      VfreeWithoutSlot(v, root', p, n - 1);
      var q := p + n - 1;
      assert !At(v.mem, root', PageVA(q).i4).present;
      assert Idx(PageVA(q), 4) == PageVA(q).i4;
      assert v.free + {0} + {0} == v.free + {0};
    }
  }

  lemma {:induction false} PrepareOtherRoot(v: Vm, level: nat, t: nat, va: VA, lvl: nat, user: bool, r: nat, j: nat)
    requires CanPrepare(v, level, t, va, lvl, user) && IsRoot(v, r) && r != t
    ensures At(Prepare(v, level, t, va, lvl, user).0.mem, r, j) == At(v.mem, r, j)
    decreases level
  {
    hide VmInv, NoHuge, UserReady, Missing, Ensure, Lowest;
    if level > lvl {
      PrepareStep(v, level, t, va, lvl, user);
      var i := Idx(va, level);
      EnsureAt(v, t, i, user);
      var v1 := Ensure(v, t, i, user);
      PrepareOtherRoot(v1, level - 1, At(v1.mem, t, i).frame, va, lvl, user, r, j);
    }
  }

  /** A mapping changes no top-level slot of another root. */
  lemma MapOtherRoot(v: Vm, root: nat, frame: nat, va: VA, ps: PageSize, f: Flags, r: nat, j: nat)
    requires CanMap(v, root, frame, va, ps, f) && IsRoot(v, r) && r != root
    ensures At(MapPage(v, root, frame, va, ps, f).mem, r, j) == At(v.mem, r, j)
  {
    hide NoHuge, UserReady, Missing, CanMap, UserClosed;
    MapPrepared(v, root, frame, va, ps, f);
    var (v1, s) := Prepare(v, 4, root, va, LeafLevel(ps), f.user);
    PrepareOtherRoot(v, 4, root, va, LeafLevel(ps), f.user, r, j);
    LeafKeepsInv(v1, s, Idx(va, LeafLevel(ps)), LeafEntry(frame, ps, f));
    assert IsRoot(v1, r);
  }

  /** Two empty address spaces and four free frames. */
  function TwoRoots(): Vm {
    Vm(map[1 := ZeroTable(), 2 := ZeroTable()], map[1 := Role(4, 0, 0), 2 := Role(4, 0, 0)], {3, 4, 5, 6})
  }

  const FIRST_PAGE: nat := 0xF_FFFC_0000_0000 // of the vmalloc area

  lemma TwoRootsReady()
    ensures CanMapRange(TwoRoots(), 1, FIRST_PAGE, 1) && IsRoot(TwoRoots(), 2)
  {
    var v := TwoRoots();
    assert forall t, i :: At(v.mem, t, i) == ZERO;
    hide PageVA;
    assert Tables(v, 1, FIRST_PAGE, 1) == Tables(v, 1, FIRST_PAGE, 0) + FreshTables(v, 1, FIRST_PAGE, FIRST_PAGE);
    forall r, q: nat | IsRoot(v, r) && FIRST_PAGE <= q < FIRST_PAGE + 1
      ensures Translate(v, r, PageVA(q)) == None
    {
    }
  }

  /** A region of one page is mapped in one address space and freed in another that was created before: page 0 becomes free, and
      the region stays mapped to a frame that stays taken. */
  lemma VfreeElsewhereExample() returns (w: Vm, fs: seq<nat>)
    ensures VmInv(w) && IsRoot(w, 2) && |fs| == 1 && Live(w, 1, FIRST_PAGE, fs)
    ensures UnmapRange(w, 2, FIRST_PAGE, 1) == w.(free := w.free + {0})
    ensures Translate(w, 1, PageVA(FIRST_PAGE)).Some?
  {
    hide CanMapRange, VmInv, Live, PageVA, Translate, MapRange, TwoRoots, UnmapRange;
    var v := TwoRoots();
    TwoRootsReady();
    w, fs := MapRange(v, 1, FIRST_PAGE, 1).0, MapRange(v, 1, FIRST_PAGE, 1).1;
    OneMappedLive(v, w, fs);
    LiveAt(w, 1, FIRST_PAGE, fs, FIRST_PAGE);
    OtherSlotEmpty(v, PageVA(FIRST_PAGE).i4);
    VfreeWithoutSlot(w, 2, FIRST_PAGE, 1);
  }

  lemma OneMappedLive(v: Vm, w: Vm, fs: seq<nat>)
    requires CanMapRange(v, 1, FIRST_PAGE, 1) && IsRoot(v, 2) && (w, fs) == MapRange(v, 1, FIRST_PAGE, 1)
    ensures VmInv(w) && IsRoot(w, 2) && |fs| == 1 && Live(w, 1, FIRST_PAGE, fs)
  {
    hide VmInv, Translate, PageVA, PathsReady, PagesLead, OthersSame, KeepsSlots, FramesTaken, CanMapRange, MapRange, FramesLeft, Live;
    MapRangeSound(v, 1, FIRST_PAGE, 1);
    MappedIsLive(v, w, 1, FIRST_PAGE, 1, fs);
  }

  lemma OtherSlotEmpty(v: Vm, j: nat)
    requires v == TwoRoots()
    ensures At(MapRange(v, 1, FIRST_PAGE, 1).0.mem, 2, j) == ZERO
  {
    hide PageVA, VmInv;
    TwoRootsReady();
    RangeOfOne(v);
    TakenFrame(v, 1, FIRST_PAGE);
    var f := Lowest(v.free);
    MapOtherRoot(v.(free := v.free - {f}), 1, f, PageVA(FIRST_PAGE), Small, WRITABLE, 2, j);
  }

  lemma RangeOfOne(v: Vm)
    requires CanMapRange(v, 1, FIRST_PAGE, 1)
    ensures CanMapOne(v, 1, FIRST_PAGE) && MapRange(v, 1, FIRST_PAGE, 1).0 == MapOne(v, 1, FIRST_PAGE).0
  {
    hide VmInv, PageVA, Translate;
    MapRangeTurn(v, 1, FIRST_PAGE, 1);
    assert MapRange(v, 1, FIRST_PAGE, 0) == (v, []);
    assert Tables(v, 1, FIRST_PAGE, 1) == Tables(v, 1, FIRST_PAGE, 0) + FreshTables(v, 1, FIRST_PAGE, FIRST_PAGE);
  }
}
