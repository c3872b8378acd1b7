/** Unmapping, process creation, and what whole runs of them and of mapping do to every address space. */
module AddressSpaces {
  import opened Basics
  import opened PageTables
  import opened PageMapping

  // ---------- vmm_get_entry and vmm_unmap_page ----------

  datatype Slot = Slot(table: nat, index: nat)

  /** The slot vmm_get_entry finds: a huge page's entry, or the last-level slot if the tables down to it exist. */
  function GetEntry(mem: map<nat, seq<Entry>>, level: nat, t: nat, va: VA): Option<Slot>
    decreases level
  {
    var e := At(mem, t, Idx(va, level));
    if level <= 1 then Some(Slot(t, Idx(va, level)))
    else if !e.present then None
    else if e.bit7 then Some(Slot(t, Idx(va, level)))
    else GetEntry(mem, level - 1, e.frame, va)
  }

  /** The state after vmm_unmap_page, and the frame whose address it returns (0 when there is no entry). */
  function UnmapPage(v: Vm, root: nat, va: VA): (Vm, nat) {
    match GetEntry(v.mem, 4, root, va)
    case None => (v, 0)
    case Some(s) => (v.(mem := Put(v.mem, s.table, s.index, ZERO)), At(v.mem, s.table, s.index).frame)
  }

  /** The slot found is a final entry on the walk's way. */
  lemma {:induction false} GetEntryFinds(v: Vm, level: nat, t: nat, va: VA)
    requires TablesOK(v) && IsTable(v, t, level) && Proper(va)
    ensures match GetEntry(v.mem, level, t, va)
            case None => Walk(v.mem, level, t, va) == None && PathTable(v.mem, level, t, va, 1) == None
            case Some(s) =>
              && s.table in v.roles
              && var lvl := v.roles[s.table].level;
                 && 1 <= lvl <= 3 && s.index == Idx(va, lvl) && PathTable(v.mem, level, t, va, lvl) == Some(s.table)
                 && Ends(At(v.mem, s.table, s.index), lvl)
    decreases level
  {
    var i := Idx(va, level);
    if level >= 2 && At(v.mem, t, i).present && !At(v.mem, t, i).bit7 {
      assert Points(v, t, i) && ChildOK(v, t, i);
      GetEntryFinds(v, level - 1, At(v.mem, t, i).frame, va);
    }
  }

  /** Unmapping empties exactly the virtual pages of the entry found, through every root that shares the top slot. */
  lemma UnmapRefines(v: Vm, root: nat, va: VA, r: nat, va': VA)
    requires VmInv(v) && IsRoot(v, root) && Proper(va) && IsRoot(v, r) && Proper(va')
    ensures var v' := UnmapPage(v, root, va).0;
            match GetEntry(v.mem, 4, root, va)
            case None => v' == v && Translate(v, root, va) == None
            case Some(s) =>
              && s.table in v.roles
              && var lvl := v.roles[s.table].level;
                 Translate(v', r, va') ==
                   if Shares(v', root, r, va.i4) && forall l :: lvl <= l <= 4 ==> Idx(va', l) == Idx(va, l) then None
                   else Translate(v, r, va')
  {
    GetEntryFinds(v, 4, root, va);
    match GetEntry(v.mem, 4, root, va)
    case None =>
    case Some(s) =>
      var lvl := v.roles[s.table].level;
      var v' := UnmapPage(v, root, va).0;
      LeafKeepsInv(v, s.table, s.index, ZERO);
      hide VmInv, Put, UserClosed, GetEntry;
      SameTop(v, v', s.table, s.index, root, r, va.i4);
      WalkWrite(v, v'.mem, s.table, s.index, 4, r, va');
      Reach(v, root, va, r, va', lvl, s.table);
      hide Walk, PathTable, TablesOK, Shares;
      assert (forall l :: lvl <= l <= 4 ==> Idx(va', l) == Idx(va, l)) <==>
             (forall l :: lvl < l <= 4 ==> Idx(va', l) == Idx(va, l)) && Idx(va', lvl) == Idx(va, lvl);
  }

  lemma UnmapKeepsInv(v: Vm, root: nat, va: VA)
    requires VmInv(v) && IsRoot(v, root) && Proper(va)
    ensures var v' := UnmapPage(v, root, va).0;
            && VmInv(v') && v'.roles == v.roles && v'.free == v.free
            && (forall x, j :: Points(v, x, j) ==> KeepsSlot(v, v', x, j))
            && (forall x, j :: IsRoot(v, x) ==> At(v'.mem, x, j) == At(v.mem, x, j))
  {
    GetEntryFinds(v, 4, root, va);
    match GetEntry(v.mem, 4, root, va)
    case None =>
    case Some(s) => LeafKeepsInv(v, s.table, s.index, ZERO);
  }

  /** A page mapped by a last-level entry is returned to the caller by its frame, and is gone from the address space; what such an
      entry holds is returned even if it is not present. */
  lemma UnmapReturnsFrame(v: Vm, root: nat, va: VA)
    requires VmInv(v) && IsRoot(v, root) && Proper(va)
    ensures Translate(UnmapPage(v, root, va).0, root, va) == None
    ensures PathTable(v.mem, 4, root, va, 1).Some? && Translate(v, root, va).Some? ==>
              UnmapPage(v, root, va).1 == Translate(v, root, va).value.frame
    ensures PathTable(v.mem, 4, root, va, 1).Some? ==>
              UnmapPage(v, root, va).1 == At(v.mem, PathTable(v.mem, 4, root, va, 1).value, va.i1).frame
  {
    UnmapRefines(v, root, va, root, va);
    GetEntryFinds(v, 4, root, va);
    if PathTable(v.mem, 4, root, va, 1).Some? { SmallFrame(v, 4, root, va); }
    UnmapKeepsInv(v, root, va);
    if s :| GetEntry(v.mem, 4, root, va) == Some(s) {
      assert Points(v, root, va.i4) by { assert PathTable(v.mem, 4, root, va, v.roles[s.table].level).Some?; }
    }
  }

  lemma {:induction false} SmallFrame(v: Vm, level: nat, t: nat, va: VA)
    requires TablesOK(v) && IsTable(v, t, level) && Proper(va) && PathTable(v.mem, level, t, va, 1).Some?
    ensures var s := PathTable(v.mem, level, t, va, 1).value;
            && GetEntry(v.mem, level, t, va) == Some(Slot(s, va.i1))
            && (Walk(v.mem, level, t, va).Some? ==> Walk(v.mem, level, t, va).value.frame == At(v.mem, s, va.i1).frame)
    decreases level
  {
    var i := Idx(va, level);
    if level > 1 {
      assert Points(v, t, i) && ChildOK(v, t, i);
      SmallFrame(v, level - 1, At(v.mem, t, i).frame, va);
    }
  }

  // ---------- mapping, then looking or unmapping ----------

  /** Writing an entry of level `lvl` leaves every path down to that level as it was. */
  lemma {:induction false} PathWritten(v: Vm, m': map<nat, seq<Entry>>, s: nat, k: nat, lvl: nat, level: nat, t: nat, va: VA)
    requires TablesOK(v) && IsTable(v, t, level) && Proper(va) && IsTable(v, s, lvl)
    requires forall x, j :: x in v.roles && !(x == s && j == k) ==> At(m', x, j) == At(v.mem, x, j)
    ensures PathTable(m', level, t, va, lvl) == PathTable(v.mem, level, t, va, lvl)
    decreases level
  {
    var i := Idx(va, level);
    if level > lvl {
      assert At(m', t, i) == At(v.mem, t, i);
      if At(v.mem, t, i).present && !At(v.mem, t, i).bit7 && level > 1 {
        assert Points(v, t, i) && ChildOK(v, t, i);
        PathWritten(v, m', s, k, lvl, level - 1, At(v.mem, t, i).frame, va);
      }
    }
  }

  /** Where the path down to `lvl` is complete, an address that differs only in the lowest c indices above it misses at
      most c tables. */
  lemma {:induction false} MissingBeside(mem: map<nat, seq<Entry>>, level: nat, t: nat, va: VA, va': VA, lvl: nat, c: nat)
    requires lvl <= level && PathTable(mem, level, t, va, lvl).Some?
    requires forall l :: lvl + c < l <= level ==> Idx(va', l) == Idx(va, l)
    ensures Missing(mem, level, t, va', lvl) <= c
    decreases level
  {
    if level > lvl + c {
      assert Idx(va', level) == Idx(va, level);
      MissingBeside(mem, level - 1, At(mem, t, Idx(va, level)).frame, va, va', lvl, c);
    }
  }

  /** No table goes missing while slots keep their tables. */
  lemma {:induction false} MissingKept(v: Vm, v': Vm, level: nat, t: nat, va: VA, lvl: nat)
    requires TablesOK(v) && KeepsSlots(v, v') && IsTable(v, t, level) && Proper(va) && 1 <= lvl && NoHuge(v.mem, level, t, va, lvl)
    ensures Missing(v'.mem, level, t, va, lvl) <= Missing(v.mem, level, t, va, lvl)
    decreases level
  {
    var i := Idx(va, level);
    if level > lvl && At(v.mem, t, i).present {
      assert Points(v, t, i) && ChildOK(v, t, i) && KeepsSlot(v, v', t, i);
      MissingKept(v, v', level - 1, At(v.mem, t, i).frame, va, lvl);
    }
  }

  ghost predicate KeepsSlots(v: Vm, v': Vm) {
    forall x, j :: Points(v, x, j) ==> KeepsSlot(v, v', x, j)
  }

  /** A mapping takes exactly the frames of the tables missing on its path. */
  lemma MapAccounts(v: Vm, root: nat, frame: nat, va: VA, ps: PageSize, f: Flags)
    requires CanMap(v, root, frame, va, ps, f)
    ensures Accounts(v, MapPage(v, root, frame, va, ps, f), Missing(v.mem, 4, root, va, LeafLevel(ps)))
  {
    hide Prepare, VmInv, NoHuge, UserReady, CanMap;
    MapPrepared(v, root, frame, va, ps, f);
    PrepareAccounts(v, 4, root, va, LeafLevel(ps), f.user);
  }

  /** A mapping leaves the path to its entry complete. */
  lemma MapLeavesPath(v: Vm, root: nat, frame: nat, va: VA, ps: PageSize, f: Flags)
    requires CanMap(v, root, frame, va, ps, f)
    ensures PathTable(MapPage(v, root, frame, va, ps, f).mem, 4, root, va, LeafLevel(ps)).Some?
  {
    MapPrepared(v, root, frame, va, ps, f);
    var lvl := LeafLevel(ps);
    var (v1, s) := Prepare(v, 4, root, va, lvl, f.user);
    LeafKeepsInv(v1, s, Idx(va, lvl), LeafEntry(frame, ps, f));
    var v' := MapPage(v, root, frame, va, ps, f);
    assert IsRoot(v1, root);
    hide Prepare, NoHuge, UserReady, PathTable, CanMap, PathUser, SameTranslations, Extends;
    PathWritten(v1, v'.mem, s, Idx(va, lvl), lvl, 4, root, va);
  }

  /** The search stops at the first final entry on the path. */
  lemma {:induction false} FindAtEnd(mem: map<nat, seq<Entry>>, level: nat, t: nat, va: VA, lvl: nat, s: nat)
    requires 1 <= lvl <= level && PathTable(mem, level, t, va, lvl) == Some(s)
    requires lvl > 1 ==> At(mem, s, Idx(va, lvl)).present && At(mem, s, Idx(va, lvl)).bit7
    ensures GetEntry(mem, level, t, va) == Some(Slot(s, Idx(va, lvl)))
    decreases level
  {
    if level > lvl {
      FindAtEnd(mem, level - 1, At(mem, t, Idx(va, level)).frame, va, lvl, s);
    }
  }

  /** An entry holds the frame, the present bit and every flag the caller passed; for a large page the frame's lowest bit is bit
      12 of the flags. */
  predicate Holds(e: Entry, frame: nat, ps: PageSize, f: Flags) {
    && e.present && e.writable == f.writable && e.user == f.user && e.rest == f.rest
    && match ps
       case Small => e.frame == frame && e.bit7 == f.bit7
       case Huge => e.frame == frame + (if f.bit12 then 1 else 0) && e.bit7
  }

  /** After vmm_map_page, vmm_get_entry finds the entry written, with every flag the caller passed. */
  lemma MapThenFind(v: Vm, root: nat, frame: nat, va: VA, ps: PageSize, f: Flags)
    requires CanMap(v, root, frame, va, ps, f)
    ensures var v' := MapPage(v, root, frame, va, ps, f);
            && IsRoot(v', root)
            && match GetEntry(v'.mem, 4, root, va)
               case None => false
               case Some(s) => IsTable(v', s.table, LeafLevel(ps)) && Holds(At(v'.mem, s.table, s.index), frame, ps, f)
  {
    MapPrepared(v, root, frame, va, ps, f);
    var lvl := LeafLevel(ps);
    var (v1, s) := Prepare(v, 4, root, va, lvl, f.user);
    LeafKeepsInv(v1, s, Idx(va, lvl), LeafEntry(frame, ps, f));
    var v' := MapPage(v, root, frame, va, ps, f);
    assert IsRoot(v1, root);
    hide Prepare, NoHuge, UserReady, PathTable, CanMap, PathUser, SameTranslations, Extends, GetEntry;
    PathWritten(v1, v'.mem, s, Idx(va, lvl), lvl, 4, root, va);
    FindAtEnd(v'.mem, 4, root, va, lvl, s);
  }

  /** Unmapping what was just mapped over unmapped pages restores every translation and returns the frame. */
  lemma UnmapUndoesMap(v: Vm, root: nat, frame: nat, va: VA, ps: PageSize, f: Flags, r: nat, va': VA)
    requires CanMap(v, root, frame, va, ps, f) && IsRoot(v, r) && Proper(va')
    requires Covers(va, ps, va') ==> Translate(v, r, va') == None
    ensures var (w, x) := UnmapPage(MapPage(v, root, frame, va, ps, f), root, va);
            Translate(w, r, va') == Translate(v, r, va') && x == frame + (if ps == Huge && f.bit12 then 1 else 0)
  {
    MapRefines(v, root, frame, va, ps, f, r, va');
    MapThenFind(v, root, frame, va, ps, f);
    MapKeepsInv(v, root, frame, va, ps, f);
    hide MapPage, CanMap, Walk, Covers, VmInv, UserClosed, GetEntry;
    var v' := MapPage(v, root, frame, va, ps, f);
    UnmapRefines(v', root, va, r, va');
    UnmapKeepsInv(v', root, va);
    CoversIndices(va, ps, va');
    SharesSame(v', UnmapPage(v', root, va).0, root, r, va.i4);
  }

  lemma SharesSame(v: Vm, w: Vm, root: nat, r: nat, i4: nat)
    requires IsRoot(v, root) && IsRoot(v, r) && w.roles == v.roles
    requires forall x, j :: IsRoot(v, x) ==> At(w.mem, x, j) == At(v.mem, x, j)
    ensures Shares(w, root, r, i4) <==> Shares(v, root, r, i4)
  {
  }

  // ---------- create_user_process ----------

  function RootTable(mem: map<nat, seq<Entry>>, cur: nat, from: nat): (z: seq<Entry>)
    ensures |z| == ENTRIES && forall i: nat :: i < ENTRIES ==> z[i] == if i < from then ZERO else At(mem, cur, i)
  {
    seq(ENTRIES, i requires 0 <= i => if i < from then ZERO else At(mem, cur, i))
  }

  /** A new root: empty below slot `from`, above it copied from the current root. create_user_process copies the kernel
      half, vmm_init_direct_mapping only slot 511. */
  ghost function CreateRoot(v: Vm, cur: nat, from: nat): (Vm, nat)
    requires v.free != {}
  {
    var n := Lowest(v.free);
    (Vm(v.mem[n := RootTable(v.mem, cur, from)],
        v.roles[n := Role(4, 0, 0)], v.free - {n}), n)
  }

  lemma CreateAt(v: Vm, cur: nat, from: nat)
    requires VmInv(v) && IsRoot(v, cur) && v.free != {} && KERNEL_HALF <= from <= ENTRIES
    ensures var (v', n) := CreateRoot(v, cur, from);
            && n !in v.roles && n in v.free && v'.roles == v.roles[n := Role(4, 0, 0)] && v'.free == v.free - {n}
            && n in v'.mem && |v'.mem[n]| == ENTRIES
            && (forall i: nat :: i < ENTRIES ==> At(v'.mem, n, i) == if i < from then ZERO else At(v.mem, cur, i))
            && (forall x, j :: x in v.roles ==> At(v'.mem, x, j) == At(v.mem, x, j) && x in v'.mem && |v'.mem[x]| == ENTRIES)
  {
  }

  lemma CreateKeepsInv(v: Vm, cur: nat, from: nat)
    requires VmInv(v) && IsRoot(v, cur) && v.free != {} && KERNEL_HALF <= from <= ENTRIES
    ensures var (v', n) := CreateRoot(v, cur, from);
            && VmInv(v') && IsRoot(v', n) && (forall r :: IsRoot(v', r) <==> r == n || IsRoot(v, r))
            && (forall x, j :: Points(v, x, j) ==> KeepsSlot(v, v', x, j))
  {
    CreateAt(v, cur, from);
    var (v', n) := CreateRoot(v, cur, from);
    hide CreateRoot, Lowest;
    forall p: nat, i: nat | Points(v', p, i)
      ensures ChildOK(v', p, i) && Points(v, if p == n then cur else p, i) && At(v'.mem, p, i) == At(v.mem, if p == n then cur else p, i)
      ensures p == n ==> i >= KERNEL_HALF
    {
      var q := if p == n then cur else p;
      assert Points(v, q, i) && ChildOK(v, q, i);
    }
    forall p: nat, i: nat, j: nat | Points(v', p, i) && j < ENTRIES && UserEntry(v', At(v'.mem, p, i).frame, j)
      ensures At(v'.mem, p, i).user
    {
      var q := if p == n then cur else p;
      assert Points(v, q, i) && ChildOK(v, q, i);
      assert UserEntry(v, At(v.mem, q, i).frame, j);
    }
  }

  /** The new address space shows the copied part of the current one and nothing below; all others are as before. */
  lemma CreateRefines(v: Vm, cur: nat, from: nat, r: nat, va: VA)
    requires VmInv(v) && IsRoot(v, cur) && v.free != {} && KERNEL_HALF <= from <= ENTRIES && Proper(va)
    ensures var (v', n) := CreateRoot(v, cur, from);
            && Translate(v', n, va) == (if va.i4 < from then None else Translate(v, cur, va))
            && (IsRoot(v, r) ==> r != n && Translate(v', r, va) == Translate(v, r, va))
  {
    hide CreateRoot, Lowest;
    CreateAt(v, cur, from);
    var (v', n) := CreateRoot(v, cur, from);
    assert SameTables(v, v'.mem);
    WalkSame(v, v'.mem, 4, cur, va);
    if IsRoot(v, r) { WalkSame(v, v'.mem, 4, r, va); }
    assert At(v'.mem, n, va.i4) == if va.i4 < from then ZERO else At(v'.mem, cur, va.i4);
  }

  // ---------- runs ----------

  /** Mapping and unmapping in any address space, creating one, and taking or giving back frames that are not tables. */
  datatype Op =
    | Map(root: nat, frame: nat, va: VA, ps: PageSize, flags: Flags)
    | Unmap(root: nat, va: VA)
    | Create(cur: nat)
    | TakeFrame
    | GiveFrame(frame: nat)

  ghost predicate Legal(v: Vm, op: Op) {
    match op
    case Map(root, frame, va, ps, f) => CanMap(v, root, frame, va, ps, f)
    case Unmap(root, va) => IsRoot(v, root) && Proper(va)
    case Create(cur) => IsRoot(v, cur) && v.free != {}
    case TakeFrame => v.free != {}
    case GiveFrame(frame) => frame !in v.roles
  }

  ghost function Step(v: Vm, op: Op): Vm
    requires Legal(v, op)
  {
    match op
    case Map(root, frame, va, ps, f) => MapPage(v, root, frame, va, ps, f)
    case Unmap(root, va) => UnmapPage(v, root, va).0
    case Create(cur) => CreateRoot(v, cur, KERNEL_HALF).0
    case TakeFrame => v.(free := v.free - {Lowest(v.free)})
    case GiveFrame(frame) => v.(free := v.free + {frame})
  }

  /** Kernel-half slots of existing roots that are in use do not change, and no root disappears. */
  ghost predicate KernelKept(v: Vm, v': Vm) {
    && (forall r :: IsRoot(v, r) ==> IsRoot(v', r))
    && (forall r, i :: IsRoot(v, r) && i >= KERNEL_HALF && Points(v, r, i) ==> Points(v', r, i) && At(v'.mem, r, i) == At(v.mem, r, i))
  }

  lemma KernelKeptTransitive(v: Vm, v1: Vm, v2: Vm)
    requires KernelKept(v, v1) && KernelKept(v1, v2)
    ensures KernelKept(v, v2)
  {
  }

  lemma EnsureKernelKept(v: Vm, t: nat, i: nat, user: bool)
    requires CanEnsure(v, t, i, user)
    ensures KernelKept(v, Ensure(v, t, i, user))
  {
    hide Ensure, Lowest, UserReady;
    EnsureAt(v, t, i, user);
  }

  lemma {:induction false} PrepareKernelKept(v: Vm, level: nat, t: nat, va: VA, lvl: nat, user: bool)
    requires CanPrepare(v, level, t, va, lvl, user)
    ensures KernelKept(v, Prepare(v, level, t, va, lvl, user).0)
    decreases level
  {
    hide KernelKept, Ensure, Lowest, UserReady, VmInv, NoHuge, Missing;
    if level > lvl {
      PrepareStep(v, level, t, va, lvl, user);
      var i := Idx(va, level);
      EnsureKernelKept(v, t, i, user);
      var v1 := Ensure(v, t, i, user);
      var c := At(v1.mem, t, i).frame;
      PrepareKernelKept(v1, level - 1, c, va, lvl, user);
      KernelKeptTransitive(v, v1, Prepare(v1, level - 1, c, va, lvl, user).0);
    } else {
      KernelKeptSelf(v);
    }
  }

  lemma KernelKeptSelf(v: Vm)
    ensures KernelKept(v, v)
  {
  }

  lemma MapKernelKept(v: Vm, root: nat, frame: nat, va: VA, ps: PageSize, f: Flags)
    requires CanMap(v, root, frame, va, ps, f)
    ensures KernelKept(v, MapPage(v, root, frame, va, ps, f))
  {
    hide Prepare, VmInv, NoHuge, UserReady, PathTable, Put, CanMap, PathUser, SameTranslations, Ends;
    MapPrepared(v, root, frame, va, ps, f);
    PrepareKernelKept(v, 4, root, va, LeafLevel(ps), f.user);
    var (v1, s) := Prepare(v, 4, root, va, LeafLevel(ps), f.user);
    LeafKeepsInv(v1, s, Idx(va, LeafLevel(ps)), LeafEntry(frame, ps, f));
  }

  /** Every step keeps the invariant and the kernel half of every root. */
  lemma StepSound(v: Vm, op: Op)
    requires VmInv(v) && Legal(v, op)
    ensures VmInv(Step(v, op)) && KernelKept(v, Step(v, op))
  {
    match op
    case Map(root, frame, va, ps, f) =>
      MapKeepsInv(v, root, frame, va, ps, f);
      MapKernelKept(v, root, frame, va, ps, f);
    case Unmap(root, va) => UnmapKeepsInv(v, root, va);
    case Create(cur) =>
      CreateKeepsInv(v, cur, KERNEL_HALF);
      CreateAt(v, cur, KERNEL_HALF);
    case TakeFrame => FreeChanged(v, v.free - {Lowest(v.free)});
    case GiveFrame(frame) => FreeChanged(v, v.free + {frame});
  }

  /** The invariant asks of the free frames only that no table is among them. */
  lemma FreeChanged(v: Vm, free: set<nat>)
    requires VmInv(v) && forall t :: t in v.roles ==> t !in free
    ensures VmInv(v.(free := free)) && KernelKept(v, v.(free := free))
  {
    var v' := v.(free := free);
    forall t, i
      ensures Points(v', t, i) <==> Points(v, t, i)
      ensures Points(v, t, i) ==> ChildOK(v', t, i)
    {
      if Points(v, t, i) { assert ChildOK(v, t, i); }
    }
    forall t, j: nat
      ensures UserEntry(v', t, j) <==> UserEntry(v, t, j)
    {
    }
  }

  ghost predicate Reaches(v: Vm, ops: seq<Op>, w: Vm)
    decreases |ops|
  {
    if ops == [] then v == w else Legal(v, ops[0]) && Reaches(Step(v, ops[0]), ops[1..], w)
  }

  lemma {:induction false} RunSound(v: Vm, ops: seq<Op>, w: Vm)
    requires VmInv(v) && Reaches(v, ops, w)
    ensures VmInv(w) && KernelKept(v, w)
    decreases |ops|
  {
    hide VmInv, Legal;
    if ops != [] {
      StepSound(v, ops[0]);
      RunSound(Step(v, ops[0]), ops[1..], w);
      KernelKeptTransitive(v, Step(v, ops[0]), w);
    }
  }

  /** The kernel half stays shared: addresses whose top slot was in use when a process was created translate the same
      through both roots, after any run of mapping, unmapping and process creation. */
  lemma KernelHalfShared(v: Vm, cur: nat, ops: seq<Op>, w: Vm, va: VA)
    requires VmInv(v) && IsRoot(v, cur) && v.free != {} && Reaches(CreateRoot(v, cur, KERNEL_HALF).0, ops, w)
    requires Proper(va) && va.i4 >= KERNEL_HALF && Points(v, cur, va.i4)
    ensures Translate(w, CreateRoot(v, cur, KERNEL_HALF).1, va) == Translate(w, cur, va)
  {
    hide CreateRoot, Lowest, VmInv, Reaches;
    CreateKeepsInv(v, cur, KERNEL_HALF);
    CreateAt(v, cur, KERNEL_HALF);
    var (v', n) := CreateRoot(v, cur, KERNEL_HALF);
    assert At(v'.mem, n, va.i4) == At(v'.mem, cur, va.i4) == At(v.mem, cur, va.i4);
    RunSound(v', ops, w);
    assert Points(v', n, va.i4) && Points(v', cur, va.i4);
    assert IsRoot(v', cur);
    assert At(w.mem, n, va.i4) == At(w.mem, cur, va.i4);
  }

  /** The operation changes no lower-half mapping of root `r` by its own request. */
  ghost predicate Foreign(op: Op, r: nat) {
    (op.Map? || op.Unmap?) && op.root == r ==> op.va.i4 >= KERNEL_HALF
  }

  /** One step in another address space leaves the lower half of this one alone. */
  lemma StepIsolated(v: Vm, op: Op, r: nat, va: VA)
    requires VmInv(v) && Legal(v, op) && IsRoot(v, r) && Foreign(op, r) && Proper(va) && va.i4 < KERNEL_HALF
    ensures Translate(Step(v, op), r, va) == Translate(v, r, va)
  {
    StepSound(v, op);
    var v' := Step(v, op);
    assert IsRoot(v', r) && TablesOK(v');
    hide Translate, VmInv;
    match op
    case Map(root, frame, va0, ps, f) =>
      MapRefines(v, root, frame, va0, ps, f, r, va);
      MapShared(v, root, frame, va0, ps, f);
      if Covers(va0, ps, va) && Shares(v', root, r, va0.i4) {
        LowerHalfPrivate(v', root, r, va0.i4);
      }
    case Unmap(root, va0) =>
      UnmapRefines(v, root, va0, r, va);
      UnmapIsolated(v, root, va0, r, va);
    case Create(cur) =>
      CreateRefines(v, cur, KERNEL_HALF, r, va);
    case TakeFrame => WalkSame(v, v'.mem, 4, r, va);
    case GiveFrame(frame) => WalkSame(v, v'.mem, 4, r, va);
  }

  lemma MapShared(v: Vm, root: nat, frame: nat, va: VA, ps: PageSize, f: Flags)
    requires CanMap(v, root, frame, va, ps, f)
    ensures IsRoot(MapPage(v, root, frame, va, ps, f), root) && Points(MapPage(v, root, frame, va, ps, f), root, va.i4)
  {
    MapPrepared(v, root, frame, va, ps, f);
    var lvl := LeafLevel(ps);
    var (v1, s) := Prepare(v, 4, root, va, lvl, f.user);
    LeafKeepsInv(v1, s, Idx(va, lvl), LeafEntry(frame, ps, f));
    assert IsRoot(v1, root) && Points(v1, root, va.i4);
  }

  lemma UnmapIsolated(v: Vm, root: nat, va0: VA, r: nat, va: VA)
    requires VmInv(v) && IsRoot(v, root) && IsRoot(v, r) && (root != r || va0.i4 >= KERNEL_HALF) && Proper(va0) && Proper(va) && va.i4 < KERNEL_HALF
    ensures Translate(UnmapPage(v, root, va0).0, r, va) == Translate(v, r, va)
  {
    UnmapRefines(v, root, va0, r, va);
    UnmapKeepsInv(v, root, va0);
    GetEntryFinds(v, 4, root, va0);
    var v' := UnmapPage(v, root, va0).0;
    if s :| GetEntry(v.mem, 4, root, va0) == Some(s) {
      assert Points(v, root, va0.i4) by { assert PathTable(v.mem, 4, root, va0, v.roles[s.table].level).Some?; }
      assert Points(v', root, va0.i4) && IsRoot(v', root) && IsRoot(v', r);
      hide Translate, GetEntry, UnmapPage, VmInv;
      if Shares(v', root, r, va0.i4) && Idx(va, 4) == Idx(va0, 4) {
        LowerHalfPrivate(v', root, r, va0.i4);
      }
    }
  }

  /** Isolation over whole runs: whatever the other processes map and unmap, and however many are created, the lower
      half of an address space translates as before. */
  lemma {:induction false} Isolation(v: Vm, ops: seq<Op>, w: Vm, r: nat, va: VA)
    requires VmInv(v) && Reaches(v, ops, w) && IsRoot(v, r) && Proper(va) && va.i4 < KERNEL_HALF
    requires forall k :: 0 <= k < |ops| ==> Foreign(ops[k], r)
    ensures Translate(w, r, va) == Translate(v, r, va)
    decreases |ops|
  {
    hide VmInv, Legal, Translate, Foreign;
    if ops != [] {
      StepSound(v, ops[0]);
      StepIsolated(v, ops[0], r, va);
      Isolation(Step(v, ops[0]), ops[1..], w, r, va);
    }
  }
}
