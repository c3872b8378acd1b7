/** vmm_map_page, vmm_unmap_page and create_user_process as changes of the translation function. */
module PageMapping {
  import opened Basics
  import opened PageTables

  // ---------- writing an entry that ends the walk ----------

  /** What a walk through a slot with entry `e` gives, when the slots above grant user access or not. */
  function Ending(e: Entry, lvl: nat, va: VA, user: bool): Option<Mapping> {
    if e.present then Some(Mapping(LeafFrame(e, lvl, va), e.writable, e.user && user, LeafPat(e, lvl), e.rest)) else None
  }

  /** Entry `e` at level `lvl` does not lead to another table. */
  predicate Ends(e: Entry, lvl: nat) {
    !e.present || lvl == 1 || e.bit7
  }

  /** Replacing one final entry changes exactly the walks that go through its slot. */
  lemma {:induction false} WalkWrite(v: Vm, m': map<nat, seq<Entry>>, s: nat, k: nat, level: nat, t: nat, va: VA)
    requires TablesOK(v) && IsTable(v, t, level) && Proper(va) && s in v.roles && k < ENTRIES && 1 <= v.roles[s].level <= 3
    requires Ends(At(v.mem, s, k), v.roles[s].level) && Ends(At(m', s, k), v.roles[s].level)
    requires forall x, j :: x in v.roles && !(x == s && j == k) ==> At(m', x, j) == At(v.mem, x, j)
    ensures var lvl := v.roles[s].level;
            Walk(m', level, t, va) ==
              if PathTable(v.mem, level, t, va, lvl) == Some(s) && Idx(va, lvl) == k
              then Ending(At(m', s, k), lvl, va, PathUser(v.mem, level, t, va, lvl))
              else Walk(v.mem, level, t, va)
    decreases level
  {
    hide LeafFrame, LeafPat;
    var i, lvl := Idx(va, level), v.roles[s].level;
    if t == s && i == k {
      assert level == lvl;
    } else {
      assert At(m', t, i) == At(v.mem, t, i);
      if level >= 2 && At(v.mem, t, i).present && !At(v.mem, t, i).bit7 {
        assert Points(v, t, i) && ChildOK(v, t, i);
        WalkWrite(v, m', s, k, level - 1, At(v.mem, t, i).frame, va);
      }
    }
  }

  // ---------- which walks go through a slot ----------

  /** Both roots lead through the same table for index `i4`. */
  ghost predicate Shares(v: Vm, r: nat, r': nat, i4: nat) {
    Points(v, r', i4) && At(v.mem, r', i4).frame == At(v.mem, r, i4).frame
  }

  /** The table above `s` on the way is its parent, at the index its role names. */
  lemma {:induction false} PathUp(v: Vm, level: nat, t: nat, va: VA, lvl: nat, s: nat)
    requires TablesOK(v) && IsTable(v, t, level) && Proper(va) && 1 <= lvl < level
    requires PathTable(v.mem, level, t, va, lvl) == Some(s)
    ensures PathTable(v.mem, level, t, va, lvl + 1).Some?
    ensures var p := PathTable(v.mem, level, t, va, lvl + 1).value;
            IsTable(v, p, lvl + 1) && Points(v, p, Idx(va, lvl + 1)) && At(v.mem, p, Idx(va, lvl + 1)).frame == s
    decreases level
  {
    var i := Idx(va, level);
    assert Points(v, t, i) && ChildOK(v, t, i);
    if level > lvl + 1 {
      PathUp(v, level - 1, At(v.mem, t, i).frame, va, lvl, s);
    }
  }

  /** Two walks that meet at a table took the same indices, and their roots share the top slot. */
  lemma {:induction false} Meet(v: Vm, r: nat, va: VA, r': nat, va': VA, lvl: nat, s: nat)
    requires TablesOK(v) && IsRoot(v, r) && IsRoot(v, r') && Proper(va) && Proper(va') && 1 <= lvl <= 3
    requires PathTable(v.mem, 4, r, va, lvl) == Some(s) && PathTable(v.mem, 4, r', va', lvl) == Some(s)
    ensures Shares(v, r, r', va.i4) && forall l :: lvl < l <= 4 ==> Idx(va', l) == Idx(va, l)
    decreases 4 - lvl
  {
    PathUp(v, 4, r, va, lvl, s);
    PathUp(v, 4, r', va', lvl, s);
    var p := PathTable(v.mem, 4, r, va, lvl + 1).value;
    var p' := PathTable(v.mem, 4, r', va', lvl + 1).value;
    assert ChildOK(v, p, Idx(va, lvl + 1)) && ChildOK(v, p', Idx(va', lvl + 1));
    if lvl < 3 {
      Meet(v, r, va, r', va', lvl + 1, p);
    }
  }

  lemma {:induction false} SameIndices(mem: map<nat, seq<Entry>>, level: nat, t: nat, va: VA, va': VA, lvl: nat)
    requires forall l :: lvl < l <= level ==> Idx(va', l) == Idx(va, l)
    ensures PathTable(mem, level, t, va', lvl) == PathTable(mem, level, t, va, lvl)
    decreases level
  {
    if level > lvl {
      assert Idx(va', level) == Idx(va, level);
      var e := At(mem, t, Idx(va, level));
      if e.present && !e.bit7 { SameIndices(mem, level - 1, e.frame, va, va', lvl); }
    }
  }

  /** The walks that reach the table at level `lvl` under (r, va) are those of roots that share the top slot, at
      virtual pages with the same upper indices. */
  lemma Reach(v: Vm, r: nat, va: VA, r': nat, va': VA, lvl: nat, s: nat)
    requires TablesOK(v) && IsRoot(v, r) && IsRoot(v, r') && Proper(va) && Proper(va') && 1 <= lvl <= 3
    requires PathTable(v.mem, 4, r, va, lvl) == Some(s)
    ensures PathTable(v.mem, 4, r', va', lvl) == Some(s) <==>
            Shares(v, r, r', va.i4) && forall l :: lvl < l <= 4 ==> Idx(va', l) == Idx(va, l)
  {
    if PathTable(v.mem, 4, r', va', lvl) == Some(s) {
      Meet(v, r, va, r', va', lvl, s);
    }
    if Shares(v, r, r', va.i4) && forall l :: lvl < l <= 4 ==> Idx(va', l) == Idx(va, l) {
      assert Idx(va', 4) == Idx(va, 4);
      assert Points(v, r, va.i4);
      SameIndices(v.mem, 3, At(v.mem, r, va.i4).frame, va, va', lvl);
    }
  }

  /** In the lower half no two roots share a slot. */
  lemma LowerHalfPrivate(v: Vm, r: nat, r': nat, i4: nat)
    requires TablesOK(v) && IsRoot(v, r) && IsRoot(v, r') && i4 < KERNEL_HALF && Points(v, r, i4) && Shares(v, r, r', i4)
    ensures r == r'
  {
    assert ChildOK(v, r, i4) && ChildOK(v, r', i4);
  }

  // ---------- vmm_map_page ----------

  /** The flag bits a caller passes; bit 7 and bit 12 are the caching bits of small and of large pages. */
  datatype Flags = Flags(writable: bool, user: bool, bit7: bool, bit12: bool, rest: nat)

  datatype PageSize = Small | Huge

  function LeafLevel(ps: PageSize): nat { if ps == Small then 1 else 2 }

  /** paddr | PTE_PRESENT | flags, with PTE_PAGE_SIZE for a large page. */
  function LeafEntry(frame: nat, ps: PageSize, f: Flags): Entry {
    Entry(if ps == Huge && f.bit12 then frame + 1 else frame, true, f.writable, f.user, f.bit7 || ps == Huge, f.rest)
  }

  /** What vmm_map_page asks of its callers and of the PMM. */
  ghost predicate CanMap(v: Vm, root: nat, frame: nat, va: VA, ps: PageSize, f: Flags) {
    && VmInv(v) && IsRoot(v, root) && Proper(va)
    && NoHuge(v.mem, 4, root, va, LeafLevel(ps))
    && (f.user ==> va.i4 < KERNEL_HALF)
    && |v.free| >= Missing(v.mem, 4, root, va, LeafLevel(ps))
    && (ps == Small ==> !f.bit12)
    && (ps == Huge ==> frame % 512 == 0 && HugeSlotEmpty(v, root, va))
  }

  /** The page-directory slot of a large mapping is empty, or its table does not exist yet. */
  ghost predicate HugeSlotEmpty(v: Vm, root: nat, va: VA) {
    match PathTable(v.mem, 4, root, va, 2)
    case None => true
    case Some(t) => !At(v.mem, t, va.i2).present
  }

  lemma RootReady(v: Vm, root: nat)
    requires TablesOK(v) && IsRoot(v, root)
    ensures UserReady(v, root)
  {
    forall p, i | Points(v, p, i)
      ensures At(v.mem, p, i).frame != root
    {
      assert ChildOK(v, p, i);
    }
  }

  ghost function MapPage(v: Vm, root: nat, frame: nat, va: VA, ps: PageSize, f: Flags): Vm
    requires CanMap(v, root, frame, va, ps, f)
  {
    RootReady(v, root);
    var (v1, s) := Prepare(v, 4, root, va, LeafLevel(ps), f.user);
    v1.(mem := Put(v1.mem, s, Idx(va, LeafLevel(ps)), LeafEntry(frame, ps, f)))
  }

  /** The virtual pages a mapping covers: one, or all 512 under the same page-directory slot. */
  predicate Covers(va: VA, ps: PageSize, va': VA) {
    va'.i4 == va.i4 && va'.i3 == va.i3 && va'.i2 == va.i2 && (ps == Small ==> va'.i1 == va.i1)
  }

  /** Writing a final entry keeps the invariant when user access is granted on the whole path. */
  lemma LeafKeepsInv(v: Vm, s: nat, k: nat, e: Entry)
    requires VmInv(v) && s in v.roles && k < ENTRIES && v.roles[s].level <= 3
    requires Ends(e, v.roles[s].level) && Ends(At(v.mem, s, k), v.roles[s].level) && (e.present && e.user ==> UserReady(v, s))
    ensures var v' := v.(mem := Put(v.mem, s, k, e));
            && VmInv(v') && forall p, i :: Points(v', p, i) <==> Points(v, p, i)
    ensures var m' := Put(v.mem, s, k, e);
            At(m', s, k) == e && forall x, j :: x in v.roles && !(x == s && j == k) ==> At(m', x, j) == At(v.mem, x, j)
  {
    hide Put;
    var v' := v.(mem := Put(v.mem, s, k, e));
    forall x, j
      ensures At(v'.mem, x, j) == if x == s && j == k then e else At(v.mem, x, j)
    {
      PutAt(v.mem, s, k, e, x, j);
    }
    PutAt(v.mem, s, k, e, s, k);
    forall p, i
      ensures Points(v', p, i) <==> Points(v, p, i)
    {
    }
    forall p, i | Points(v', p, i)
      ensures ChildOK(v', p, i)
    {
      assert ChildOK(v, p, i);
    }
    forall p, i, j: nat | Points(v', p, i) && j < ENTRIES && UserEntry(v', At(v'.mem, p, i).frame, j)
      ensures At(v'.mem, p, i).user
    {
      if !(At(v.mem, p, i).frame == s && j == k) {
        assert UserEntry(v, At(v.mem, p, i).frame, j);
      }
    }
  }

  // ---------- what mapping does ----------

  /** Descending changes nothing in a table of the target level that already existed, and a new one is cleared. */
  lemma {:induction false} PrepareTarget(v: Vm, level: nat, t: nat, va: VA, lvl: nat, user: bool)
    requires CanPrepare(v, level, t, va, lvl, user)
    ensures var (v', s) := Prepare(v, level, t, va, lvl, user);
            match PathTable(v.mem, level, t, va, lvl)
            case Some(o) => s == o && forall k :: At(v'.mem, s, k) == At(v.mem, s, k)
            case None => forall k :: At(v'.mem, s, k) == ZERO
    ensures var (v', s) := Prepare(v, level, t, va, lvl, user);
            forall x, k :: x in v.roles && v.roles[x].level <= lvl ==> At(v'.mem, x, k) == At(v.mem, x, k)
    decreases level
  {
    hide Lowest, UserReady, VmInv, SameTranslations, Extends, NoHuge, UserEntry;
    if level > lvl {
      PrepareStep(v, level, t, va, lvl, user);
      var i := Idx(va, level);
      EnsureAt(v, t, i, user);
      EnsureSound(v, t, i, user);
      var v1 := Ensure(v, t, i, user);
      var c := At(v1.mem, t, i).frame;
      hide Ensure;
      PrepareTarget(v1, level - 1, c, va, lvl, user);
      if At(v.mem, t, i).present {
        PathSame(v, v1, t, i, level - 1, c, va, lvl);
        PathEnds(v, level - 1, c, va, lvl);
      } else {
        assert forall k :: At(v1.mem, c, k) == ZERO;
      }
    }
  }

  lemma {:induction false} PathEnds(v: Vm, level: nat, t: nat, va: VA, lvl: nat)
    requires VmInv(v) && IsTable(v, t, level) && Proper(va) && 1 <= lvl
    ensures PathTable(v.mem, level, t, va, lvl).Some? ==> IsTable(v, PathTable(v.mem, level, t, va, lvl).value, lvl)
    decreases level
  {
    var i := Idx(va, level);
    if level > lvl && At(v.mem, t, i).present && !At(v.mem, t, i).bit7 {
      assert Points(v, t, i) && ChildOK(v, t, i);
      PathEnds(v, level - 1, At(v.mem, t, i).frame, va, lvl);
    }
  }

  /** A change of slots above the start of a path does not change the path. */
  lemma {:induction false} PathSame(v: Vm, v1: Vm, s: nat, k: nat, level: nat, t: nat, va: VA, lvl: nat)
    requires VmInv(v) && IsTable(v, t, level) && Proper(va) && s in v.roles && v.roles[s].level > level && 1 <= lvl
    requires forall x, j :: x in v.roles && !(x == s && j == k) ==> At(v1.mem, x, j) == At(v.mem, x, j)
    ensures PathTable(v1.mem, level, t, va, lvl) == PathTable(v.mem, level, t, va, lvl)
    decreases level
  {
    var i := Idx(va, level);
    assert At(v1.mem, t, i) == At(v.mem, t, i);
    if level > lvl && At(v.mem, t, i).present && !At(v.mem, t, i).bit7 {
      assert Points(v, t, i) && ChildOK(v, t, i);
      PathSame(v, v1, s, k, level - 1, At(v.mem, t, i).frame, va, lvl);
    }
  }

  lemma {:induction false} SameIndicesUser(mem: map<nat, seq<Entry>>, level: nat, t: nat, va: VA, va': VA, lvl: nat)
    requires forall l :: lvl < l <= level ==> Idx(va', l) == Idx(va, l)
    ensures PathUser(mem, level, t, va', lvl) == PathUser(mem, level, t, va, lvl)
    decreases level
  {
    if level > lvl {
      assert Idx(va', level) == Idx(va, level);
      SameIndicesUser(mem, level - 1, At(mem, t, Idx(va, level)).frame, va, va', lvl);
    }
  }

  /** The prepared state and the table the leaf goes into. */
  lemma MapPrepared(v: Vm, root: nat, frame: nat, va: VA, ps: PageSize, f: Flags)
    requires CanMap(v, root, frame, va, ps, f)
    ensures CanPrepare(v, 4, root, va, LeafLevel(ps), f.user)
    ensures var lvl := LeafLevel(ps);
            var (v1, s) := Prepare(v, 4, root, va, lvl, f.user);
            && VmInv(v1) && IsTable(v1, s, lvl) && Extends(v, v1) && SameTranslations(v, v1) && v1.free <= v.free
            && PathTable(v1.mem, 4, root, va, lvl) == Some(s)
            && (f.user ==> UserReady(v1, s) && PathUser(v1.mem, 4, root, va, lvl))
            && Ends(At(v1.mem, s, Idx(va, lvl)), lvl) && Ends(LeafEntry(frame, ps, f), lvl)
  {
    RootReady(v, root);
    PrepareSound(v, 4, root, va, LeafLevel(ps), f.user);
    PrepareTarget(v, 4, root, va, LeafLevel(ps), f.user);
    hide Prepare, VmInv, NoHuge, UserReady, PathTable, Extends, SameTranslations, PathUser;
  }

  /** The frame a covered page is mapped to. */
  function PageFrame(frame: nat, ps: PageSize, va: VA): nat {
    if ps == Small then frame else frame + va.i1
  }

  lemma MapKeepsInv(v: Vm, root: nat, frame: nat, va: VA, ps: PageSize, f: Flags)
    requires CanMap(v, root, frame, va, ps, f)
    ensures var v' := MapPage(v, root, frame, va, ps, f);
            && VmInv(v') && (forall r :: IsRoot(v', r) <==> IsRoot(v, r)) && v'.free <= v.free
            && (forall x, j :: Points(v, x, j) ==> KeepsSlot(v, v', x, j))
  {
    hide Prepare, VmInv, NoHuge, UserReady, PathTable, Put, CanMap, PathUser, SameTranslations, Ends;
    MapPrepared(v, root, frame, va, ps, f);
    var (v1, s) := Prepare(v, 4, root, va, LeafLevel(ps), f.user);
    LeafKeepsInv(v1, s, Idx(va, LeafLevel(ps)), LeafEntry(frame, ps, f));
    var v' := MapPage(v, root, frame, va, ps, f);
    forall x, j | Points(v, x, j)
      ensures KeepsSlot(v, v', x, j)
    {
      ExtendsAt(v, v1, x, j);
    }
  }

  /** Mapping is a point update of the translation function: the covered pages lead to the new frame with the rights
      and the memory type the caller asked for, through every root that shares the top slot, and no other page changes. */
  lemma MapRefines(v: Vm, root: nat, frame: nat, va: VA, ps: PageSize, f: Flags, r: nat, va': VA)
    requires CanMap(v, root, frame, va, ps, f) && IsRoot(v, r) && Proper(va')
    ensures var v' := MapPage(v, root, frame, va, ps, f);
            Translate(v', r, va') ==
              if Covers(va, ps, va') && Shares(v', root, r, va.i4)
              then Some(Mapping(PageFrame(frame, ps, va'), f.writable, f.user, if ps == Small then f.bit7 else f.bit12, f.rest))
              else Translate(v, r, va')
  {
    MapPrepared(v, root, frame, va, ps, f);
    var (v1, s) := Prepare(v, 4, root, va, LeafLevel(ps), f.user);
    hide Prepare, VmInv, NoHuge, UserReady, PathTable, Put, CanMap, Walk, PathUser, Ends, Covers, Shares, LeafEntry, Translate;
    assert IsRoot(v1, r) && IsRoot(v1, root);
    LeafRefines(v1, root, s, frame, va, ps, f, r, va');
  }

  /** What the processor reads in an entry written for the caller. */
  lemma LeafReads(frame: nat, ps: PageSize, f: Flags, va: VA, user: bool)
    requires Proper(va) && (ps == Huge ==> frame % 512 == 0)
    ensures Ending(LeafEntry(frame, ps, f), LeafLevel(ps), va, user)
            == Some(Mapping(PageFrame(frame, ps, va), f.writable, f.user && user, if ps == Small then f.bit7 else f.bit12, f.rest))
  {
    if ps == Huge { LargeFrame(frame / 512, if f.bit12 then 1 else 0); }
  }

  lemma LargeFrame(k: nat, b: nat)
    requires b < 2
    ensures (512 * k + b) % 512 == b && (512 * k + b) % 2 == b
  {
    Remainder(k, b);
    Parity(256 * k, b);
  }

  lemma Remainder(k: nat, b: nat)
    requires b < 512
    ensures (512 * k + b) % 512 == b
  {
  }

  lemma Parity(k: nat, b: nat)
    requires b < 2
    ensures (2 * k + b) % 2 == b
  {
  }

  /** The same for writing the leaf once its table is in place. */
  lemma LeafRefines(v: Vm, root: nat, s: nat, frame: nat, va: VA, ps: PageSize, f: Flags, r: nat, va': VA)
    requires VmInv(v) && IsRoot(v, root) && IsRoot(v, r) && Proper(va) && Proper(va') && IsTable(v, s, LeafLevel(ps))
    requires PathTable(v.mem, 4, root, va, LeafLevel(ps)) == Some(s)
    requires f.user ==> va.i4 < KERNEL_HALF && UserReady(v, s) && PathUser(v.mem, 4, root, va, LeafLevel(ps))
    requires Ends(At(v.mem, s, Idx(va, LeafLevel(ps))), LeafLevel(ps)) && (ps == Huge ==> frame % 512 == 0) && (ps == Small ==> !f.bit12)
    ensures var v' := v.(mem := Put(v.mem, s, Idx(va, LeafLevel(ps)), LeafEntry(frame, ps, f)));
            Translate(v', r, va') ==
              if Covers(va, ps, va') && Shares(v', root, r, va.i4)
              then Some(Mapping(PageFrame(frame, ps, va'), f.writable, f.user, if ps == Small then f.bit7 else f.bit12, f.rest))
              else Translate(v, r, va')
  {
    var lvl := LeafLevel(ps);
    var k, e := Idx(va, lvl), LeafEntry(frame, ps, f);
    var v' := v.(mem := Put(v.mem, s, k, e));
    LeafKeepsInv(v, s, k, e);
    SameTop(v, v', s, k, root, r, va.i4);
    LeafReads(frame, ps, f, va', PathUser(v.mem, 4, r, va', lvl));
    hide VmInv, UserReady, Put, Shares, UserClosed, Points, Ending, PageFrame;
    WalkWrite(v, v'.mem, s, k, 4, r, va');
    Reach(v, root, va, r, va', lvl, s);
    CoversIndices(va, ps, va');
    hide Walk, PathTable, Covers, TablesOK;
    if f.user && Covers(va, ps, va') && Shares(v, root, r, va.i4) {
      MapUserPath(v, root, r, va, va', lvl, s);
    }
  }

  lemma SameTop(v: Vm, v': Vm, s: nat, k: nat, root: nat, r: nat, i4: nat)
    requires IsRoot(v, root) && IsRoot(v, r) && s in v.roles && v.roles[s].level <= 3 && v'.roles == v.roles
    requires forall x, j :: x in v.roles && !(x == s && j == k) ==> At(v'.mem, x, j) == At(v.mem, x, j)
    ensures Shares(v', root, r, i4) <==> Shares(v, root, r, i4)
  {
    assert At(v'.mem, r, i4) == At(v.mem, r, i4) && At(v'.mem, root, i4) == At(v.mem, root, i4);
  }

  lemma CoversIndices(va: VA, ps: PageSize, va': VA)
    ensures Covers(va, ps, va') <==> (forall l :: LeafLevel(ps) < l <= 4 ==> Idx(va', l) == Idx(va, l)) && Idx(va', LeafLevel(ps)) == Idx(va, LeafLevel(ps))
  {
    if (forall l :: LeafLevel(ps) < l <= 4 ==> Idx(va', l) == Idx(va, l)) && Idx(va', LeafLevel(ps)) == Idx(va, LeafLevel(ps)) {
      assert Idx(va', 4) == Idx(va, 4) && Idx(va', 3) == Idx(va, 3) && Idx(va', 2) == Idx(va, 2);
    }
  }

  lemma MapUserPath(v1: Vm, root: nat, r: nat, va: VA, va': VA, lvl: nat, s: nat)
    requires VmInv(v1) && IsRoot(v1, root) && IsRoot(v1, r) && Proper(va) && va.i4 < KERNEL_HALF && 1 <= lvl <= 2
    requires PathTable(v1.mem, 4, root, va, lvl) == Some(s) && PathUser(v1.mem, 4, root, va, lvl)
    requires Shares(v1, root, r, va.i4) && forall l :: lvl < l <= 4 ==> Idx(va', l) == Idx(va, l)
    ensures PathUser(v1.mem, 4, r, va', lvl)
  {
    assert Points(v1, root, va.i4);
    LowerHalfPrivate(v1, root, r, va.i4);
    SameIndicesUser(v1.mem, 4, root, va, va', lvl);
  }
}
