/** vfree, and what whole runs of vmalloc and vfree keep: live regions share no page and no frame. */
module VmallocRuns {
  import opened Basics
  import opened PageTables
  import opened PageMapping
  import opened AddressSpaces
  import opened VmallocPages
  import opened Sequences

  // ---------- the loop of vfree ----------

  /** One turn: unmap the page and give the frame its entry held back to the page allocator. */
  ghost function UnmapOne(v: Vm, root: nat, q: nat): Vm {
    var (v', f) := UnmapPage(v, root, PageVA(q));
    v'.(free := v'.free + {f})
  }

  ghost predicate CanUnmapOne(v: Vm, root: nat, q: nat, f: nat) {
    && VmInv(v) && IsRoot(v, root) && f !in v.roles
    && PathTable(v.mem, 4, root, PageVA(q), 1).Some?
    && Translate(v, root, PageVA(q)) == Some(Mapping(f, true, false, false, 0))
  }

  /** `v'` differs from `v` only in that page q is mapped no longer. */
  ghost predicate OneUnmapped(v: Vm, v': Vm, root: nat, q: nat) {
    forall r, va :: IsRoot(v, r) && Proper(va) ==>
      Translate(v', r, va) == if va == PageVA(q) && Shares(v', root, r, PageVA(q).i4) then None else Translate(v, r, va)
  }

  lemma UnmapOneSound(v: Vm, root: nat, q: nat, f: nat)
    requires CanUnmapOne(v, root, q, f)
    ensures var v' := UnmapOne(v, root, q);
            && VmInv(v') && v'.roles == v.roles && v'.free == v.free + {f} && KeepsSlots(v, v')
            && OneUnmapped(v, v', root, q)
  {
    UnmapKeepsInv(v, root, PageVA(q));
    UnmapReturnsFrame(v, root, PageVA(q));
    var v1 := UnmapPage(v, root, PageVA(q)).0;
    assert forall t :: t in v1.roles ==> t !in v1.free + {f} by { hide UserClosed; }
    FreeChanged(v1, v1.free + {f});
    var v' := UnmapOne(v, root, q);
    SamePoints(v1, v');
    hide VmInv, Walk, PathTable, PageVA;
    forall r, va | IsRoot(v, r) && Proper(va)
      ensures Translate(v', r, va) == if va == PageVA(q) && Shares(v', root, r, PageVA(q).i4) then None else Translate(v, r, va)
    {
      UnmapSmall(v, root, PageVA(q), r, va);
    }
  }

  lemma UnmapSmall(v: Vm, root: nat, va: VA, r: nat, va': VA)
    requires VmInv(v) && IsRoot(v, root) && Proper(va) && IsRoot(v, r) && Proper(va')
    requires PathTable(v.mem, 4, root, va, 1).Some?
    ensures var v' := UnmapPage(v, root, va).0;
            Translate(v', r, va') == if va' == va && Shares(v', root, r, va.i4) then None else Translate(v, r, va')
  {
    SmallFrame(v, 4, root, va);
    PathEnds(v, 4, root, va, 1);
    UnmapRefines(v, root, va, r, va');
    hide UnmapPage, Walk, VmInv, PathTable;
    if forall l :: 1 <= l <= 4 ==> Idx(va', l) == Idx(va, l) {
      assert Idx(va', 1) == Idx(va, 1) && Idx(va', 2) == Idx(va, 2) && Idx(va', 3) == Idx(va, 3) && Idx(va', 4) == Idx(va, 4);
    }
  }

  ghost function UnmapRange(v: Vm, root: nat, p: nat, n: nat): Vm {
    if n == 0 then v else UnmapOne(UnmapRange(v, root, p, n - 1), root, p + n - 1)
  }

  /** A live region: the last-level tables of its pages exist, each page leads to its frame through exactly the roots
      that share the top slot, and the frames are distinct, not free, and no tables. */
  ghost predicate Live(v: Vm, root: nat, p: nat, fs: seq<nat>) {
    && KernelRange(p, |fs|) && IsRoot(v, root)
    && PathsReady(v, root, p, |fs|) && PagesLead(v, v, root, p, |fs|, fs)
    && Distinct(fs) && FramesHeld(v, fs)
  }

  ghost predicate FramesHeld(v: Vm, fs: seq<nat>) {
    forall i :: 0 <= i < |fs| ==> fs[i] !in v.free && fs[i] !in v.roles
  }

  /** What the loop of vfree has achieved after n pages of the region. */
  ghost predicate RangeUnmapped(v: Vm, v': Vm, p: nat, n: nat, fs: seq<nat>)
    requires n <= |fs|
  {
    && VmInv(v') && v'.roles == v.roles && v'.free == v.free + Elements(fs[..n]) && KeepsSlots(v, v')
    && PagesGone(v, v', p, n) && OthersSame(v, v', p, n)
  }

  ghost predicate PagesGone(v: Vm, v': Vm, p: nat, n: nat) {
    forall r, q: nat :: IsRoot(v, r) && p <= q < p + n ==> Translate(v', r, PageVA(q)) == None
  }

  /** Unmapping a live region: its pages are gone everywhere, exactly its frames are free again, all else is as before. */
  lemma {:induction false} UnmapRangeSound(v: Vm, root: nat, p: nat, n: nat, fs: seq<nat>)
    requires VmInv(v) && Live(v, root, p, fs) && n <= |fs|
    ensures RangeUnmapped(v, UnmapRange(v, root, p, n), p, n, fs)
  {
    hide VmInv, Live, RangeUnmapped, UnmapRange, UnmapOne, CanUnmapOne, OneUnmapped, KeepsSlots;
    UnmapTurn(v, root, p, n);
    if n == 0 {
      UnmapNothing(v, p, fs);
    } else {
      UnmapRangeSound(v, root, p, n - 1, fs);
      var v1 := UnmapRange(v, root, p, n - 1);
      NextUnmappable(v, v1, root, p, n - 1, fs);
      UnmapOneSound(v1, root, p + n - 1, fs[n - 1]);
      UnmapExtend(v, v1, UnmapOne(v1, root, p + n - 1), root, p, n - 1, fs);
    }
  }

  lemma UnmapTurn(v: Vm, root: nat, p: nat, n: nat)
    ensures UnmapRange(v, root, p, n) == if n == 0 then v else UnmapOne(UnmapRange(v, root, p, n - 1), root, p + n - 1)
  {
  }

  lemma UnmapNothing(v: Vm, p: nat, fs: seq<nat>)
    requires VmInv(v)
    ensures RangeUnmapped(v, v, p, 0, fs)
  {
    hide VmInv, Translate;
    assert fs[..0] == [] && v.free + {} == v.free;
  }

  /** The frame and the path of a page still mapped. */
  lemma LiveAt(v: Vm, root: nat, p: nat, fs: seq<nat>, q: nat)
    requires Live(v, root, p, fs) && p <= q < p + |fs|
    ensures PathTable(v.mem, 4, root, PageVA(q), 1).Some? && Translate(v, root, PageVA(q)) == Some(Mapping(fs[q - p], true, false, false, 0))
    ensures forall r :: IsRoot(v, r) ==> PageLeads(v, root, r, p, fs, q)
    ensures fs[q - p] !in v.free && fs[q - p] !in v.roles
  {
    hide Translate, PathTable, PageVA, Shares;
    assert PageLeads(v, root, root, p, fs, q);
  }

  lemma NextUnmappable(v: Vm, v1: Vm, root: nat, p: nat, n: nat, fs: seq<nat>)
    requires VmInv(v) && Live(v, root, p, fs) && n < |fs| && RangeUnmapped(v, v1, p, n, fs)
    ensures CanUnmapOne(v1, root, p + n, fs[n])
  {
    hide VmInv, PageVA, Translate, KeepsSlots, Shares, PathsReady, PagesLead, PathTable, InRange, Distinct, PagesGone;
    LiveAt(v, root, p, fs, p + n);
    PathStill(v, v1, root, PageVA(p + n));
    OutsideFirst(p, n, |fs|, p + n);
    assert IsRoot(v1, root);
  }

  lemma PathStill(v: Vm, v1: Vm, root: nat, va: VA)
    requires VmInv(v) && IsRoot(v, root) && KeepsSlots(v, v1) && Proper(va) && PathTable(v.mem, 4, root, va, 1).Some?
    ensures PathTable(v1.mem, 4, root, va, 1).Some?
  {
    hide UserClosed, KeepsSlots;
    PathKept(v, v1, 4, root, va);
  }

  /** A page of a kernel range outside its first n pages. */
  lemma OutsideFirst(p: nat, n: nat, m: nat, q: nat)
    requires KernelRange(p, m) && n <= m && p + n <= q < p + m
    ensures !InRange(PageVA(q), p, n)
  {
    hide PageVA;
    forall j: nat | p <= j < p + n
      ensures PageVA(j) != PageVA(q)
    {
      KernelPage(p, m, j, q);
    }
  }

  lemma UnmapExtend(v: Vm, v1: Vm, v2: Vm, root: nat, p: nat, n: nat, fs: seq<nat>)
    requires VmInv(v) && Live(v, root, p, fs) && n < |fs| && RangeUnmapped(v, v1, p, n, fs)
    requires VmInv(v2) && v2.roles == v1.roles && v2.free == v1.free + {fs[n]} && KeepsSlots(v1, v2)
    requires OneUnmapped(v1, v2, root, p + n)
    ensures RangeUnmapped(v, v2, p, n + 1, fs)
  {
    hide VmInv, PageVA, Translate, KeepsSlots, Shares, PathsReady, PagesLead, PathTable, InRange, OneUnmapped, PagesGone, OthersSame, Distinct, FramesHeld, Points;
    KeepsTransitive(v, v1, v2);
    ElementsNext(fs, n);
    assert SameRoots(v, v1);
    LiveAt(v, root, p, fs, p + n);
    OutsideFirst(p, n, |fs|, p + n);
    PathTop(v, root, PageVA(p + n));
    GoneExtend(v, v1, v2, root, p, n, fs);
    OthersGone(v, v1, v2, root, p, n);
  }

  lemma GoneExtend(v: Vm, v1: Vm, v2: Vm, root: nat, p: nat, n: nat, fs: seq<nat>)
    requires n < |fs| && SameRoots(v, v1) && PagesGone(v, v1, p, n) && OthersSame(v, v1, p, n) && OneUnmapped(v1, v2, root, p + n)
    requires !InRange(PageVA(p + n), p, n) && IsRoot(v, root) && Points(v, root, PageVA(p + n).i4)
    requires forall r :: IsRoot(v, r) ==> PageLeads(v, root, r, p, fs, p + n)
    requires KeepsSlots(v, v2)
    ensures PagesGone(v, v2, p, n + 1)
  {
    hide PageVA, Translate, Shares, InRange, KeepsSlots, Points;
    forall r, q: nat | IsRoot(v, r) && p <= q < p + n + 1
      ensures Translate(v2, r, PageVA(q)) == None
    {
      assert IsRoot(v1, r);
      if q == p + n {
        assert PageLeads(v, root, r, p, fs, q);
        if Shares(v, root, r, PageVA(q).i4) { SharesKept(v, v2, root, r, PageVA(q).i4); }
      }
    }
  }

  lemma OthersGone(v: Vm, v1: Vm, v2: Vm, root: nat, p: nat, n: nat)
    requires SameRoots(v, v1) && OthersSame(v, v1, p, n) && OneUnmapped(v1, v2, root, p + n)
    ensures OthersSame(v, v2, p, n + 1)
  {
    hide PageVA, Translate, Shares, InRange;
    forall r, va | IsRoot(v, r) && Proper(va) && !InRange(va, p, n + 1)
      ensures Translate(v2, r, va) == Translate(v, r, va)
    {
      OutsideLonger(va, p, n);
      assert IsRoot(v1, r);
    }
  }

  // ---------- vmalloc, then vfree ----------

  lemma MappedIsLive(v: Vm, w: Vm, root: nat, p: nat, n: nat, fs: seq<nat>)
    requires CanMapRange(v, root, p, n) && RangeMapped(v, w, root, p, n, fs) && FramesTaken(v, w, fs)
    ensures Live(w, root, p, fs)
  {
    hide VmInv, Translate, PageVA, Shares, PathsReady, OthersSame, PageLeads, KeepsSlots, Distinct;
    assert forall i :: 0 <= i < |fs| ==> fs[i] in fs;
  }

  /** vmalloc followed by vfree restores every translation and gives back exactly the frames taken for data: the only
      frames no longer free are the tables that vmalloc created. */
  lemma VfreeUndoesVmalloc(v: Vm, root: nat, p: nat, n: nat)
    requires CanMapRange(v, root, p, n)
    ensures var (w, fs) := MapRange(v, root, p, n);
            var u := UnmapRange(w, root, p, n);
            && VmInv(u) && u.roles == w.roles && SameTranslations(v, u)
            && u.free == v.free - (u.roles.Keys - v.roles.Keys)
  {
    var (w, fs) := MapRange(v, root, p, n);
    var u := UnmapRange(w, root, p, n);
    MapRangeSound(v, root, p, n);
    MappedIsLive(v, w, root, p, n, fs);
    UnmapRangeSound(w, root, p, n, fs);
    assert fs[..n] == fs;
    hide Live, MapRange, UnmapRange, VmInv, Translate, KeepsSlots, PathsReady, PagesLead;
    SameAfter(v, w, u, p, n);
    FreeAfter(v, w, u, fs);
  }

  lemma SameAfter(v: Vm, w: Vm, u: Vm, p: nat, n: nat)
    requires Unmapped(v, p, n) && SameRoots(v, w) && OthersSame(v, w, p, n) && OthersSame(w, u, p, n) && PagesGone(w, u, p, n)
    ensures SameTranslations(v, u)
  {
    hide Translate, PageVA;
    forall r, va | IsRoot(v, r) && Proper(va)
      ensures Translate(u, r, va) == Translate(v, r, va)
    {
      assert IsRoot(w, r);
      if InRange(va, p, n) {
        var q: nat :| p <= q < p + n && va == PageVA(q);
      }
    }
  }

  lemma FreeAfter(v: Vm, w: Vm, u: Vm, fs: seq<nat>)
    requires FramesTaken(v, w, fs) && u.roles == w.roles && u.free == w.free + Elements(fs)
    requires forall t :: t in v.roles ==> t !in v.free
    ensures u.free == v.free - (u.roles.Keys - v.roles.Keys)
  {
    hide Distinct;
    forall x
      ensures x in u.free <==> x in v.free && x !in u.roles.Keys - v.roles.Keys
    {
      if x in fs { var i :| 0 <= i < |fs| && fs[i] == x; }
    }
  }
}
