/** Whole runs of vmalloc and vfree among everything else that happens to address spaces and frames. */
module VmallocSteps {
  import opened Basics
  import opened PageTables
  import opened PageMapping
  import opened AddressSpaces
  import opened VmallocPages
  import opened VmallocRuns
  import opened VmallocElsewhere
  import opened VmallocArena
  import opened Regions

  /** vmalloc and vfree in the current address space; a change to any other address space; and any mapping, unmapping,
      process creation, taking or giving of frames that leaves the arena's pages and frames alone. */
  datatype Step =
    | Allocate(size: nat)
    | Release(index: nat)
    | Switch(root: nat)
    | Other(op: Op)

  /** The top-level slots of the arena. */
  predicate ArenaSlot(i4: nat) { 384 <= i4 < 448 }

  lemma ArenaIndices(q: nat)
    requires InArena(q)
    ensures ArenaSlot(PageVA(q).i4)
  {
    var h := q / 0x800_0000;
    assert 0x1FF_FF80 <= h < 0x1FF_FFC0;
  }

  ghost predicate Outside(a: Arena, op: Op) {
    match op
    case Map(_, _, va, _, _) => !ArenaSlot(va.i4)
    case Unmap(_, va) => !ArenaSlot(va.i4)
    case Create(_) => true
    case TakeFrame => true
    case GiveFrame(f) => forall r :: r in a.regions && r.base in a.frames ==> f !in a.frames[r.base]
  }

  ghost predicate CanStep(a: Arena, s: Step) {
    match s
    case Allocate(size) => CanVmalloc(a, size)
    case Release(k) => CanVfree(a, k)
    case Switch(root) => IsRoot(a.vm, root)
    case Other(op) => Legal(a.vm, op) && Outside(a, op)
  }

  ghost function Done(a: Arena, s: Step): Arena
    requires CanStep(a, s)
  {
    match s
    case Allocate(size) => Vmalloc(a, size)
    case Release(k) => Vfree(a, k)
    case Switch(root) => a.(root := root)
    case Other(op) => a.(vm := AddressSpaces.Step(a.vm, op))
  }

  // ---------- another address space becomes the current one ----------

  lemma SwitchKeepsInv(a: Arena, root: nat)
    requires ArenaInv(a) && IsRoot(a.vm, root)
    ensures ArenaInv(a.(root := root))
  {
    hide VmInv, Ordered, Live, Quiet;
    forall r | r in a.regions
      ensures RegionOK(a.vm, a.owners, r, a.frames)
    {
      RegionAt(a, r);
    }
    ApartSame(a, a.(root := root));
  }

  lemma ApartSame(a: Arena, b: Arena)
    requires AllApart(a) && b.regions == a.regions && b.frames == a.frames
    ensures AllApart(b)
  {
    forall r, s | r in b.regions && s in b.regions && r != s
      ensures Apart(b, r, s)
    {
      assert Apart(a, r, s);
    }
  }

  // ---------- what happens outside the arena ----------

  /** The arena's pages lead where they led, slots keep their tables, and no held frame becomes free or a table. */
  ghost predicate LeavesArena(a: Arena, w: Vm) {
    && VmInv(w) && SameRoots(a.vm, w) && KeepsSlots(a.vm, w) && SameArena(a.vm, w)
    && forall r :: r in a.regions && r.base in a.frames && FramesHeld(a.vm, a.frames[r.base]) ==> FramesHeld(w, a.frames[r.base])
  }

  ghost predicate SameArena(v: Vm, w: Vm) {
    forall r, q: nat :: IsRoot(v, r) && InArena(q) ==> Translate(w, r, PageVA(q)) == Translate(v, r, PageVA(q))
  }

  lemma LeavingKeepsInv(a: Arena, w: Vm)
    requires ArenaInv(a) && LeavesArena(a, w)
    ensures ArenaInv(a.(vm := w))
  {
    hide VmInv, Ordered, Live, Translate, PageVA, KeepsSlots, FramesHeld, Taken;
    forall r | r in a.regions
      ensures RegionOK(w, a.owners, r, a.frames)
    {
      RegionAt(a, r);
      RegionPages(r);
      HeldByLive(a.vm, a.owners[r.base], FirstPage(r), a.frames[r.base]);
      RegionSame(a.vm, w, r);
      LiveKept(a.vm, w, a.owners[r.base], FirstPage(r), a.frames[r.base]);
    }
    ApartSame(a, a.(vm := w));
  }

  lemma RegionSame(v: Vm, w: Vm, r: Region)
    requires OnPages(r) && SameArena(v, w)
    ensures SamePages(v, w, FirstPage(r), PageCount(r))
  {
    hide Translate, PageVA;
    RegionPages(r);
    forall x, q: nat | IsRoot(v, x) && FirstPage(r) <= q < FirstPage(r) + PageCount(r)
      ensures Translate(w, x, PageVA(q)) == Translate(v, x, PageVA(q))
    {
      assert Has(r, q);
    }
  }

  lemma HeldByLive(v: Vm, root: nat, p: nat, fs: seq<nat>)
    requires Live(v, root, p, fs)
    ensures FramesHeld(v, fs)
  {
    hide PageVA, PathsReady, PagesLead;
  }

  lemma MapLeaves(a: Arena, root: nat, frame: nat, va: VA, ps: PageSize, f: Flags)
    requires ArenaInv(a) && CanMap(a.vm, root, frame, va, ps, f) && !ArenaSlot(va.i4)
    ensures LeavesArena(a, MapPage(a.vm, root, frame, va, ps, f))
  {
    hide VmInv, CanMap, MapPage, Translate, PageVA, RegionsOK, Quiet, Ordered, Covers, Shares, Accounts;
    var w := MapPage(a.vm, root, frame, va, ps, f);
    MapKeepsInv(a.vm, root, frame, va, ps, f);
    MapAccounts(a.vm, root, frame, va, ps, f);
    forall r, q: nat | IsRoot(a.vm, r) && InArena(q)
      ensures Translate(w, r, PageVA(q)) == Translate(a.vm, r, PageVA(q))
    {
      ArenaIndices(q);
      assert !Covers(va, ps, PageVA(q)) by { OtherSlotApart(va, ps, PageVA(q)); }
      MapRefines(a.vm, root, frame, va, ps, f, r, PageVA(q));
    }
    forall r | r in a.regions && r.base in a.frames && FramesHeld(a.vm, a.frames[r.base])
      ensures FramesHeld(w, a.frames[r.base])
    {
      HeldThroughAccounts(a.vm, w, Missing(a.vm.mem, 4, root, va, LeafLevel(ps)), a.frames[r.base]);
    }
  }

  lemma OtherSlotApart(va: VA, ps: PageSize, va': VA)
    requires va.i4 != va'.i4
    ensures !Covers(va, ps, va')
  {
  }

  lemma HeldThroughAccounts(v: Vm, w: Vm, n: nat, gs: seq<nat>)
    requires Accounts(v, w, n) && FramesHeld(v, gs)
    ensures FramesHeld(w, gs)
  {
    forall i | 0 <= i < |gs|
      ensures gs[i] !in w.free && gs[i] !in w.roles
    {
      assert gs[i] !in w.roles.Keys - v.roles.Keys;
    }
  }

  lemma UnmapLeaves(a: Arena, root: nat, va: VA)
    requires ArenaInv(a) && IsRoot(a.vm, root) && Proper(va) && !ArenaSlot(va.i4)
    ensures LeavesArena(a, UnmapPage(a.vm, root, va).0)
  {
    hide VmInv, UnmapPage, Translate, PageVA, RegionsOK, Quiet, Ordered, GetEntry, Shares;
    var w := UnmapPage(a.vm, root, va).0;
    UnmapKeepsInv(a.vm, root, va);
    forall r, q: nat | IsRoot(a.vm, r) && InArena(q)
      ensures Translate(w, r, PageVA(q)) == Translate(a.vm, r, PageVA(q))
    {
      ArenaIndices(q);
      UnmapElsewhere(a.vm, root, va, r, PageVA(q));
    }
  }

  lemma UnmapElsewhere(v: Vm, root: nat, va: VA, r: nat, va': VA)
    requires VmInv(v) && IsRoot(v, root) && IsRoot(v, r) && Proper(va) && Proper(va') && va.i4 != va'.i4
    ensures Translate(UnmapPage(v, root, va).0, r, va') == Translate(v, r, va')
  {
    hide Translate, UnmapPage, GetEntry;
    GetEntryFinds(v, 4, root, va);
    UnmapRefines(v, root, va, r, va');
    assert Idx(va', 4) != Idx(va, 4);
  }

  lemma FreeLeaves(a: Arena, free: set<nat>)
    requires ArenaInv(a) && (forall t :: t in a.vm.roles ==> t !in free)
    requires forall r :: r in a.regions && r.base in a.frames && FramesHeld(a.vm, a.frames[r.base]) ==> FramesHeld(a.vm.(free := free), a.frames[r.base])
    ensures LeavesArena(a, a.vm.(free := free))
  {
    hide PageVA, RegionsOK, Quiet, Ordered, FramesHeld;
    FreeChanged(a.vm, free);
    SamePoints(a.vm, a.vm.(free := free));
  }

  // ---------- a new process ----------

  lemma CreateKeepsArena(a: Arena, cur: nat)
    requires ArenaInv(a) && IsRoot(a.vm, cur) && a.vm.free != {}
    ensures ArenaInv(a.(vm := CreateRoot(a.vm, cur, KERNEL_HALF).0))
  {
    hide VmInv, Ordered, Live, Translate, PageVA, KeepsSlots, CreateRoot, Taken;
    var (w, n) := CreateRoot(a.vm, cur, KERNEL_HALF);
    CreateKeepsInv(a.vm, cur, KERNEL_HALF);
    forall r | r in a.regions
      ensures RegionOK(w, a.owners, r, a.frames)
    {
      RegionAt(a, r);
      RegionPages(r);
      LiveThroughCreate(a.vm, cur, a.owners[r.base], FirstPage(r), a.frames[r.base]);
    }
    forall r, q: nat | IsRoot(w, r) && InArena(q) && !Taken(a.regions, q)
      ensures Translate(w, r, PageVA(q)) == None
    {
      ArenaIndices(q);
      CreateRefines(a.vm, cur, KERNEL_HALF, r, PageVA(q));
    }
    ApartSame(a, a.(vm := w));
  }

  lemma LiveThroughCreate(v: Vm, cur: nat, root: nat, p: nat, fs: seq<nat>)
    requires VmInv(v) && IsRoot(v, cur) && v.free != {} && Live(v, root, p, fs)
    ensures Live(CreateRoot(v, cur, KERNEL_HALF).0, root, p, fs)
  {
    hide VmInv, PageVA, Translate, PathTable, Shares, Distinct, PageLeads, CreateRoot;
    var (w, n) := CreateRoot(v, cur, KERNEL_HALF);
    CreateKeepsInv(v, cur, KERNEL_HALF);
    CreateAt(v, cur, KERNEL_HALF);
    assert KeepsSlots(v, w);
    forall q: nat | p <= q < p + |fs|
      ensures PathTable(w.mem, 4, root, PageVA(q), 1).Some?
    {
      LiveAt(v, root, p, fs, q);
      PathStill(v, w, root, PageVA(q));
    }
    forall r, q: nat | IsRoot(w, r) && p <= q < p + |fs|
      ensures PageLeads(w, root, r, p, fs, q)
    {
      LiveAt(v, root, p, fs, q);
      CreateLead(v, cur, root, p, fs, r, q);
    }
  }

  /** What a page shows through any root once the new one is there. */
  lemma CreateLead(v: Vm, cur: nat, root: nat, p: nat, fs: seq<nat>, r: nat, q: nat)
    requires VmInv(v) && IsRoot(v, cur) && v.free != {} && Live(v, root, p, fs) && p <= q < p + |fs|
    requires IsRoot(CreateRoot(v, cur, KERNEL_HALF).0, r)
    ensures PageLeads(CreateRoot(v, cur, KERNEL_HALF).0, root, r, p, fs, q)
  {
    hide VmInv, Translate, PathTable, CreateRoot, Live, PageVA;
    var (w, n) := CreateRoot(v, cur, KERNEL_HALF);
    CreateKeepsInv(v, cur, KERNEL_HALF);
    CreateAt(v, cur, KERNEL_HALF);
    LiveRange(v, root, p, fs);
    KernelPage(p, |fs|, q, q);
    LiveAt(v, root, p, fs, q);
    PathTop(v, root, PageVA(q));
    CreateRefines(v, cur, KERNEL_HALF, r, PageVA(q));
    CreateRefines(v, cur, KERNEL_HALF, root, PageVA(q));
    var x := if r == n then cur else r;
    assert PageLeads(v, root, x, p, fs, q);
    assert At(w.mem, r, PageVA(q).i4) == At(v.mem, x, PageVA(q).i4) && At(w.mem, root, PageVA(q).i4) == At(v.mem, root, PageVA(q).i4);
  }

  lemma LiveRange(v: Vm, root: nat, p: nat, fs: seq<nat>)
    requires Live(v, root, p, fs)
    ensures KernelRange(p, |fs|) && IsRoot(v, root)
  {
  }

  // ---------- runs ----------

  lemma OtherKeepsInv(a: Arena, op: Op)
    requires ArenaInv(a) && Legal(a.vm, op) && Outside(a, op)
    ensures ArenaInv(a.(vm := AddressSpaces.Step(a.vm, op)))
  {
    hide ArenaInv, CanMap, MapPage, UnmapPage, CreateRoot, LeavesArena;
    match op
    case Map(root, frame, va, ps, f) =>
      MapLeaves(a, root, frame, va, ps, f);
      LeavingKeepsInv(a, MapPage(a.vm, root, frame, va, ps, f));
    case Unmap(root, va) =>
      UnmapLeaves(a, root, va);
      LeavingKeepsInv(a, UnmapPage(a.vm, root, va).0);
    case Create(cur) => CreateKeepsArena(a, cur);
    case TakeFrame =>
      TablesNotFree(a);
      FreeLeaves(a, a.vm.free - {Lowest(a.vm.free)});
      LeavingKeepsInv(a, a.vm.(free := a.vm.free - {Lowest(a.vm.free)}));
    case GiveFrame(frame) =>
      TablesNotFree(a);
      GiveLeaves(a, frame);
      LeavingKeepsInv(a, a.vm.(free := a.vm.free + {frame}));
  }

  lemma TablesNotFree(a: Arena)
    requires ArenaInv(a)
    ensures forall t :: t in a.vm.roles ==> t !in a.vm.free
  {
    hide RegionsOK, Quiet, AllApart, Ordered, UserClosed;
  }

  lemma GiveLeaves(a: Arena, frame: nat)
    requires ArenaInv(a) && frame !in a.vm.roles && Outside(a, GiveFrame(frame)) && forall t :: t in a.vm.roles ==> t !in a.vm.free
    ensures LeavesArena(a, a.vm.(free := a.vm.free + {frame}))
  {
    hide ArenaInv;
    forall r | r in a.regions && r.base in a.frames && FramesHeld(a.vm, a.frames[r.base])
      ensures FramesHeld(a.vm.(free := a.vm.free + {frame}), a.frames[r.base])
    {
      assert forall i :: 0 <= i < |a.frames[r.base]| ==> a.frames[r.base][i] in a.frames[r.base];
    }
    FreeLeaves(a, a.vm.free + {frame});
  }

  lemma StepKeepsInv(a: Arena, s: Step)
    requires ArenaInv(a) && CanStep(a, s)
    ensures ArenaInv(Done(a, s))
  {
    hide ArenaInv, Outside;
    match s
    case Allocate(size) => VmallocKeepsInv(a, size);
    case Release(k) => VfreeKeepsInv(a, k);
    case Switch(root) => SwitchKeepsInv(a, root);
    case Other(op) => OtherKeepsInv(a, op);
  }

  ghost predicate Reaches(a: Arena, steps: seq<Step>, b: Arena)
    decreases |steps|
  {
    if steps == [] then a == b else CanStep(a, steps[0]) && Reaches(Done(a, steps[0]), steps[1..], b)
  }

  lemma {:induction false} RunKeepsInv(a: Arena, steps: seq<Step>, b: Arena)
    requires ArenaInv(a) && Reaches(a, steps, b)
    ensures ArenaInv(b)
    decreases |steps|
  {
    hide ArenaInv, CanStep, Done;
    if steps != [] {
      StepKeepsInv(a, steps[0]);
      RunKeepsInv(Done(a, steps[0]), steps[1..], b);
    }
  }

  /** After every run, each page of a live region leads to a frame of its own through the root that mapped it: no two regions share
      a virtual page, no two pages share a frame, and none of the frames is free or a table. */
  lemma RunsShareNothing(a: Arena, steps: seq<Step>, b: Arena, r: Region, q: nat, s: Region, q': nat)
    requires ArenaInv(a) && Reaches(a, steps, b)
    requires r in b.regions && s in b.regions && Has(r, q) && Has(s, q')
    ensures r.base in b.owners && s.base in b.owners
    ensures Translate(b.vm, b.owners[r.base], PageVA(q)).Some? && Translate(b.vm, b.owners[s.base], PageVA(q')).Some?
    ensures q == q' ==> r == s
    ensures q != q' ==> Translate(b.vm, b.owners[r.base], PageVA(q)).value.frame != Translate(b.vm, b.owners[s.base], PageVA(q')).value.frame
    ensures Translate(b.vm, b.owners[r.base], PageVA(q)).value.frame !in b.vm.free + b.vm.roles.Keys
  {
    hide VmInv, Translate, PageVA, Quiet, RegionsOK, KernelRange, PathsReady, PagesLead;
    RunKeepsInv(a, steps, b);
    RegionAt(b, r);
    RegionAt(b, s);
    LiveAt(b.vm, b.owners[r.base], FirstPage(r), b.frames[r.base], q);
    LiveAt(b.vm, b.owners[s.base], FirstPage(s), b.frames[s.base], q');
    var x, y := b.frames[r.base][q - FirstPage(r)], b.frames[s.base][q' - FirstPage(s)];
    assert x in b.frames[r.base] && y in b.frames[s.base];
    if r != s {
      OrderedBeside(b.regions, r, s);
      PagesApart(r, s, q);
      assert VmallocArena.Apart(b, r, s);
    }
  }
}
