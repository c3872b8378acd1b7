/** Four-level page tables on values: walking, mapping, unmapping and sharing, as mm/vmm.c does them. */
module PageTables {
  import opened Basics

  /** A page-table entry as the processor decodes it. `frame` is the physical address shifted right by 12; `bit7` is
      the page-size bit above the last level and a caching bit in the last level; `rest` holds the remaining bits. */
  datatype Entry = Entry(frame: nat, present: bool, writable: bool, user: bool, bit7: bool, rest: nat)

  const ZERO: Entry := Entry(0, false, false, false, false, 0)
  const ENTRIES: nat := 512
  const KERNEL_HALF: nat := 256

  /** What a table page is for: its level (4 is a root), and the slot that points to it. Kernel-half tables of level 3
      may be pointed to by several roots; `parent` is then the root that created them. */
  datatype Role = Role(level: nat, parent: nat, index: nat)

  /** Physical memory seen as tables, which frames are tables and what for, and the frames the PMM has free. */
  datatype Vm = Vm(mem: map<nat, seq<Entry>>, roles: map<nat, Role>, free: set<nat>)

  /** A virtual page by its four table indices. */
  datatype VA = VA(i4: nat, i3: nat, i2: nat, i1: nat)

  /** Where a virtual page leads, with the rights the whole path grants, and how its memory is used: the bit that selects the
      memory type, and the remaining bits of the final entry. */
  datatype Mapping = Mapping(frame: nat, writable: bool, user: bool, pat: bool, rest: nat)

  predicate Proper(va: VA) {
    va.i4 < ENTRIES && va.i3 < ENTRIES && va.i2 < ENTRIES && va.i1 < ENTRIES
  }

  function Idx(va: VA, level: nat): nat {
    if level == 4 then va.i4 else if level == 3 then va.i3 else if level == 2 then va.i2 else va.i1
  }

  function At(mem: map<nat, seq<Entry>>, t: nat, i: nat): Entry {
    if t in mem && i < |mem[t]| then mem[t][i] else ZERO
  }

  function Put(mem: map<nat, seq<Entry>>, t: nat, i: nat, e: Entry): map<nat, seq<Entry>> {
    if t in mem && i < |mem[t]| then mem[t := mem[t][i := e]] else mem
  }

  /** The frame an entry that ends the walk at `level` gives: a 4 KB page, or one of the pages of a larger one. */
  function LeafFrame(e: Entry, level: nat, va: VA): nat {
    if level == 1 then e.frame
    else if level == 2 then e.frame - e.frame % 512 + va.i1
    else e.frame - e.frame % 0x40000 + va.i2 * 512 + va.i1
  }

  /** The bit that selects the memory type: bit 7 of a last-level entry, bit 12 of a larger page's. */
  function LeafPat(e: Entry, level: nat): bool {
    if level == 1 then e.bit7 else e.frame % 2 == 1
  }

  /** The processor's walk from table `t` of the given level: every entry on the way must be present, and a right is
      granted only if every entry grants it. */
  function Walk(mem: map<nat, seq<Entry>>, level: nat, t: nat, va: VA): Option<Mapping>
    decreases level
  {
    var e := At(mem, t, Idx(va, level));
    if level == 0 || !e.present then None
    else if level == 1 || e.bit7 then Some(Mapping(LeafFrame(e, level, va), e.writable, e.user, LeafPat(e, level), e.rest))
    else match Walk(mem, level - 1, e.frame, va)
      case None => None
      case Some(m) => Some(m.(writable := m.writable && e.writable, user := m.user && e.user))
  }

  function Translate(v: Vm, root: nat, va: VA): Option<Mapping> { Walk(v.mem, 4, root, va) }

  ghost predicate IsTable(v: Vm, t: nat, level: nat) {
    t in v.roles && v.roles[t].level == level
  }

  ghost predicate IsRoot(v: Vm, r: nat) { IsTable(v, r, 4) }

  /** The slot points to a table of the next level. */
  ghost predicate Points(v: Vm, t: nat, i: nat) {
    && t in v.roles && i < ENTRIES && 2 <= v.roles[t].level
    && At(v.mem, t, i).present && !At(v.mem, t, i).bit7
  }

  ghost predicate ChildOK(v: Vm, t: nat, i: nat)
    requires t in v.roles
  {
    var c := At(v.mem, t, i).frame;
    && At(v.mem, t, i).writable
    && c in v.roles && v.roles[c].level == v.roles[t].level - 1 && v.roles[c].index == i
    && (v.roles[c].parent == t || (v.roles[t].level == 4 && i >= KERNEL_HALF))
  }

  ghost predicate TablesOK(v: Vm) {
    && (forall t :: t in v.roles ==> t in v.mem && |v.mem[t]| == ENTRIES && 1 <= v.roles[t].level <= 4 && t !in v.free)
    && (forall t, i :: Points(v, t, i) ==> ChildOK(v, t, i))
    && (forall r, i: nat :: IsRoot(v, r) && i < ENTRIES && At(v.mem, r, i).present ==> !At(v.mem, r, i).bit7)
  }

  /** A present user entry has the user bit in every slot that leads to its table. */
  ghost predicate UserClosed(v: Vm) {
    forall t, i, j: nat :: Points(v, t, i) && j < ENTRIES && UserEntry(v, At(v.mem, t, i).frame, j) ==> At(v.mem, t, i).user
  }

  ghost predicate UserEntry(v: Vm, t: nat, j: nat) {
    At(v.mem, t, j).present && At(v.mem, t, j).user
  }

  ghost predicate VmInv(v: Vm) {
    TablesOK(v) && UserClosed(v)
  }

  // ---------- taking a frame ----------

  /** The lowest free frame, which is the one pmm_alloc_page returns. */
  ghost function Lowest(s: set<nat>): (x: nat)
    requires s != {}
    ensures x in s && forall y :: y in s ==> x <= y
  {
    LowestExists(s);
    var x :| x in s && forall y :: y in s ==> x <= y;
    x
  }

  lemma LowestExists(s: set<nat>)
    requires s != {}
    ensures exists x :: x in s && forall y :: y in s ==> x <= y
  {
    var x :| x in s;
    LowestBelow(s, x);
  }

  lemma {:induction false} LowestBelow(s: set<nat>, x: nat)
    requires x in s
    ensures exists z :: z in s && forall y :: y in s ==> z <= y
  {
    if y :| y in s && y < x {
      LowestBelow(s, y);
    }
  }

  function ZeroTable(): (z: seq<Entry>)
    ensures |z| == ENTRIES && forall i :: 0 <= i < ENTRIES ==> z[i] == ZERO
  {
    seq(ENTRIES, _ => ZERO)
  }

  // ---------- one level of vmm_map_page ----------

  /** Make slot (t, i) point to a table: create a cleared one when the slot is empty, otherwise grant user access if asked. */
  ghost function Ensure(v: Vm, t: nat, i: nat, user: bool): Vm
    requires t in v.roles && v.roles[t].level >= 2 && (At(v.mem, t, i).present || v.free != {})
  {
    var e := At(v.mem, t, i);
    if !e.present then
      var n := Lowest(v.free);
      Vm(Put(v.mem[n := ZeroTable()], t, i, Entry(n, true, true, user, false, 0)),
         v.roles[n := Role(v.roles[t].level - 1, t, i)], v.free - {n})
    else if user then v.(mem := Put(v.mem, t, i, e.(user := true)))
    else v
  }

  lemma PutAt(mem: map<nat, seq<Entry>>, t: nat, i: nat, e: Entry, t': nat, i': nat)
    requires t in mem && i < |mem[t]|
    ensures At(Put(mem, t, i, e), t', i') == if t' == t && i' == i then e else At(mem, t', i')
    ensures Put(mem, t, i, e).Keys == mem.Keys && forall x :: x in mem ==> |Put(mem, t, i, e)[x]| == |mem[x]|
  {
  }

  // ---------- memory changes that keep the walk ----------

  /** `m'` shows the same entries as `m` in every table of `v`. */
  ghost predicate SameTables(v: Vm, m': map<nat, seq<Entry>>) {
    forall t, i :: t in v.roles ==> At(m', t, i) == At(v.mem, t, i)
  }

  /** What lies outside the tables does not matter to a walk. */
  lemma {:induction false} WalkSame(v: Vm, m': map<nat, seq<Entry>>, level: nat, t: nat, va: VA)
    requires TablesOK(v) && SameTables(v, m') && IsTable(v, t, level) && Proper(va)
    ensures Walk(m', level, t, va) == Walk(v.mem, level, t, va)
    decreases level
  {
    var i := Idx(va, level);
    assert At(m', t, i) == At(v.mem, t, i);
    if level >= 2 && At(v.mem, t, i).present && !At(v.mem, t, i).bit7 {
      assert Points(v, t, i) && ChildOK(v, t, i);
      WalkSame(v, m', level - 1, At(v.mem, t, i).frame, va);
    }
  }

  /** Linking a cleared table into an empty slot: still nothing is mapped through that slot. */
  lemma {:induction false} WalkLink(v: Vm, m': map<nat, seq<Entry>>, s: nat, k: nat, level: nat, t: nat, va: VA)
    requires TablesOK(v) && IsTable(v, t, level) && Proper(va)
    requires s in v.roles && v.roles[s].level >= 2 && k < ENTRIES && !At(v.mem, s, k).present
    requires !At(m', s, k).bit7 && forall j :: At(m', At(m', s, k).frame, j) == ZERO
    requires forall x, j :: x in v.roles && !(x == s && j == k) ==> At(m', x, j) == At(v.mem, x, j)
    ensures Walk(m', level, t, va) == Walk(v.mem, level, t, va)
    decreases level
  {
    var i := Idx(va, level);
    if t == s && i == k {
      assert Walk(m', level - 1, At(m', s, k).frame, va) == None;
    } else {
      assert At(m', t, i) == At(v.mem, t, i);
      if level >= 2 && At(v.mem, t, i).present && !At(v.mem, t, i).bit7 {
        assert Points(v, t, i) && ChildOK(v, t, i);
        WalkLink(v, m', s, k, level - 1, At(v.mem, t, i).frame, va);
      }
    }
  }

  /** A walk that grants user access starts at a user entry. */
  lemma WalkUser(v: Vm, level: nat, t: nat, va: VA)
    ensures Walk(v.mem, level, t, va).Some? && Walk(v.mem, level, t, va).value.user ==> UserEntry(v, t, Idx(va, level))
  {
  }

  /** Setting the user bit of an intermediate slot changes no page's effective rights: whoever had user access below
      already had it through this slot. */
  lemma {:induction false} WalkGrant(v: Vm, m': map<nat, seq<Entry>>, s: nat, k: nat, level: nat, t: nat, va: VA)
    requires VmInv(v) && IsTable(v, t, level) && Proper(va) && Points(v, s, k)
    requires At(m', s, k) == At(v.mem, s, k).(user := true)
    requires forall x, j :: x in v.roles && !(x == s && j == k) ==> At(m', x, j) == At(v.mem, x, j)
    ensures Walk(m', level, t, va) == Walk(v.mem, level, t, va)
    decreases level
  {
    var i := Idx(va, level);
    var e := At(v.mem, t, i);
    if !(t == s && i == k) {
      assert At(m', t, i) == e;
    }
    if level >= 2 && e.present && !e.bit7 {
      assert Points(v, t, i) && ChildOK(v, t, i);
      WalkGrant(v, m', s, k, level - 1, e.frame, va);
      WalkUser(v, level - 1, e.frame, va);
    }
  }

  // ---------- Ensure keeps the invariant and every translation ----------

  /** Every slot that leads to table `t` already grants user access. */
  ghost predicate UserReady(v: Vm, t: nat) {
    forall p, i :: Points(v, p, i) && At(v.mem, p, i).frame == t ==> At(v.mem, p, i).user
  }

  /** When one level of a mapping may be prepared: no huge page in the way, and user access only on paths that have
      it so far, never through the kernel half of a root. */
  ghost predicate CanEnsure(v: Vm, t: nat, i: nat, user: bool) {
    && VmInv(v) && t in v.roles && 2 <= v.roles[t].level && i < ENTRIES
    && (At(v.mem, t, i).present ==> !At(v.mem, t, i).bit7)
    && (user ==> UserReady(v, t) && (v.roles[t].level == 4 ==> i < KERNEL_HALF))
    && (At(v.mem, t, i).present || v.free != {})
  }

  lemma EnsureAt(v: Vm, t: nat, i: nat, user: bool)
    requires CanEnsure(v, t, i, user)
    ensures var v', e := Ensure(v, t, i, user), At(v.mem, t, i);
            && (e.present ==> v'.roles == v.roles && v'.free == v.free && At(v'.mem, t, i) == e.(user := e.user || user))
            && (!e.present ==>
                 var n := Lowest(v.free);
                 && n !in v.roles && v'.roles == v.roles[n := Role(v.roles[t].level - 1, t, i)] && v'.free == v.free - {n}
                 && At(v'.mem, t, i) == Entry(n, true, true, user, false, 0) && n in v'.mem && v'.mem[n] == ZeroTable())
            && (forall x, j :: x in v.roles && !(x == t && j == i) ==> At(v'.mem, x, j) == At(v.mem, x, j))
            && (forall x :: x in v.roles ==> x in v'.mem && |v'.mem[x]| == ENTRIES)
  {
    var e := At(v.mem, t, i);
    if !e.present {
      var n := Lowest(v.free);
      var m1 := v.mem[n := ZeroTable()];
      assert n !in v.roles;
    }
  }

  lemma EnsureTables(v: Vm, t: nat, i: nat, user: bool)
    requires CanEnsure(v, t, i, user)
    ensures var v' := Ensure(v, t, i, user);
            && TablesOK(v') && Points(v', t, i) && At(v'.mem, t, i).writable && (user ==> At(v'.mem, t, i).user)
    ensures var v' := Ensure(v, t, i, user);
            forall p, k :: Points(v', p, k) && !(p == t && k == i) ==> Points(v, p, k) && At(v'.mem, p, k) == At(v.mem, p, k)
  {
    hide Ensure, UserClosed, UserReady, Lowest;
    EnsureAt(v, t, i, user);
    var v' := Ensure(v, t, i, user);
    if !At(v.mem, t, i).present {
      var n := Lowest(v.free);
      assert forall j :: At(v'.mem, n, j) == ZERO;
    } else {
      assert Points(v, t, i) && ChildOK(v, t, i);
    }
    forall p, k | Points(v', p, k) && !(p == t && k == i)
      ensures Points(v, p, k) && At(v'.mem, p, k) == At(v.mem, p, k)
    {
    }
    forall p, k | Points(v', p, k)
      ensures ChildOK(v', p, k)
    {
      if !(p == t && k == i) { assert ChildOK(v, p, k); }
    }
  }

  lemma EnsureUser(v: Vm, t: nat, i: nat, user: bool)
    requires CanEnsure(v, t, i, user)
    ensures UserClosed(Ensure(v, t, i, user))
  {
    hide Ensure, Lowest;
    EnsureAt(v, t, i, user);
    EnsureTables(v, t, i, user);
    var v' := Ensure(v, t, i, user);
    forall p, k, j: nat | Points(v', p, k) && j < ENTRIES && UserEntry(v', At(v'.mem, p, k).frame, j)
      ensures At(v'.mem, p, k).user
    {
      EnsureUserSlot(v, t, i, user, p, k, j);
    }
  }

  lemma EnsureUserSlot(v: Vm, t: nat, i: nat, user: bool, p: nat, k: nat, j: nat)
    requires CanEnsure(v, t, i, user) && j < ENTRIES
    requires var v' := Ensure(v, t, i, user); Points(v', p, k) && UserEntry(v', At(v'.mem, p, k).frame, j)
    ensures At(Ensure(v, t, i, user).mem, p, k).user
  {
    EnsureAt(v, t, i, user);
    EnsureTables(v, t, i, user);
    var v' := Ensure(v, t, i, user);
    hide Ensure, Lowest, TablesOK;
    var c := At(v'.mem, p, k).frame;
    assert !At(v.mem, t, i).present ==> forall x :: At(v'.mem, At(v'.mem, t, i).frame, x) == ZERO;
    if p == t && k == i {
      if At(v.mem, t, i).present {
        assert ChildOK(v, t, i) by { assert Points(v, t, i); }
        assert UserEntry(v, c, j);
      }
    } else {
      assert Points(v, p, k) && ChildOK(v, p, k);
      if c == t && j == i {
        if !user { assert UserEntry(v, c, j); }
      } else {
        assert UserEntry(v, c, j);
      }
    }
  }

  /** The table below the prepared slot. */
  lemma EnsureChild(v: Vm, t: nat, i: nat, user: bool)
    requires CanEnsure(v, t, i, user)
    ensures var v' := Ensure(v, t, i, user);
            var c := At(v'.mem, t, i).frame;
            IsTable(v', c, v.roles[t].level - 1) && (user ==> UserReady(v', c))
  {
    EnsureTables(v, t, i, user);
    EnsureAt(v, t, i, user);
    var v' := Ensure(v, t, i, user);
    var c := At(v'.mem, t, i).frame;
    assert ChildOK(v', t, i);
    if user {
      forall p, k | Points(v', p, k) && At(v'.mem, p, k).frame == c
        ensures p == t && k == i
      {
        assert ChildOK(v', p, k);
      }
      assert At(v'.mem, t, i).user;
    }
  }

  lemma EnsureTranslates(v: Vm, t: nat, i: nat, user: bool, r: nat, va: VA)
    requires CanEnsure(v, t, i, user) && IsRoot(v, r) && Proper(va)
    ensures Translate(Ensure(v, t, i, user), r, va) == Translate(v, r, va)
  {
    hide Ensure, Lowest, Walk, UserReady;
    EnsureAt(v, t, i, user);
    var v' := Ensure(v, t, i, user);
    if !At(v.mem, t, i).present {
      assert forall j :: At(v'.mem, Lowest(v.free), j) == ZERO;
      WalkLink(v, v'.mem, t, i, 4, r, va);
    } else if user {
      assert Points(v, t, i);
      WalkGrant(v, v'.mem, t, i, 4, r, va);
    } else {
      assert SameTables(v, v'.mem);
      WalkSame(v, v'.mem, 4, r, va);
    }
  }

  /** Preparing a level: the invariant stands, the slot leads to a table, and no translation changes. */
  lemma EnsureSound(v: Vm, t: nat, i: nat, user: bool)
    requires CanEnsure(v, t, i, user)
    ensures var v' := Ensure(v, t, i, user);
            && VmInv(v') && Points(v', t, i) && At(v'.mem, t, i).writable && (user ==> At(v'.mem, t, i).user)
            && IsTable(v', At(v'.mem, t, i).frame, v.roles[t].level - 1) && (user ==> UserReady(v', At(v'.mem, t, i).frame))
            && (forall x :: x in v.roles ==> x in v'.roles && v'.roles[x] == v.roles[x])
            && (forall r :: IsRoot(v', r) <==> IsRoot(v, r))
    ensures var v' := Ensure(v, t, i, user);
            && v'.free <= v.free && |v'.free| >= |v.free| - 1
            && (forall r, va :: IsRoot(v, r) && Proper(va) ==> Translate(v', r, va) == Translate(v, r, va))
  {
    EnsureAt(v, t, i, user);
    EnsureTables(v, t, i, user);
    EnsureUser(v, t, i, user);
    EnsureChild(v, t, i, user);
    hide Ensure, Lowest, Translate, UserReady, TablesOK, UserClosed;
    var v' := Ensure(v, t, i, user);
    forall r, va | IsRoot(v, r) && Proper(va)
      ensures Translate(v', r, va) == Translate(v, r, va)
    {
      EnsureTranslates(v, t, i, user, r, va);
    }
  }

  // ---------- descending to the level of the mapping ----------

  /** Slots that lead to tables stay, keep their target and lose no right. */
  ghost predicate Extends(v: Vm, v': Vm) {
    && (forall x :: x in v.roles ==> x in v'.roles && v'.roles[x] == v.roles[x])
    && (forall r :: IsRoot(v', r) <==> IsRoot(v, r))
    && (forall x, j :: Points(v, x, j) ==> KeepsSlot(v, v', x, j))
  }

  ghost predicate KeepsSlot(v: Vm, v': Vm, x: nat, j: nat) {
    && Points(v', x, j) && At(v'.mem, x, j).frame == At(v.mem, x, j).frame
    && (At(v.mem, x, j).user ==> At(v'.mem, x, j).user)
  }

  ghost predicate SameTranslations(v: Vm, v': Vm) {
    forall r, va :: IsRoot(v, r) && Proper(va) ==> Translate(v', r, va) == Translate(v, r, va)
  }

  lemma EnsureExtends(v: Vm, t: nat, i: nat, user: bool)
    requires CanEnsure(v, t, i, user)
    ensures Extends(v, Ensure(v, t, i, user)) && SameTranslations(v, Ensure(v, t, i, user))
  {
    hide Ensure, Lowest, VmInv, UserReady, Translate;
    EnsureSound(v, t, i, user);
    EnsureAt(v, t, i, user);
    var v' := Ensure(v, t, i, user);
    forall x, j | Points(v, x, j)
      ensures KeepsSlot(v, v', x, j)
    {
    }
  }

  /** The table of level `lvl` on the way from table `t`. */
  function PathTable(mem: map<nat, seq<Entry>>, level: nat, t: nat, va: VA, lvl: nat): Option<nat>
    decreases level
  {
    if level <= lvl then (if level == lvl then Some(t) else None)
    else
      var e := At(mem, t, Idx(va, level));
      if !e.present || e.bit7 then None else PathTable(mem, level - 1, e.frame, va, lvl)
  }

  /** Whether every slot on the way down to level `lvl` grants user access. */
  function PathUser(mem: map<nat, seq<Entry>>, level: nat, t: nat, va: VA, lvl: nat): bool
    decreases level
  {
    level <= lvl || (At(mem, t, Idx(va, level)).user && PathUser(mem, level - 1, At(mem, t, Idx(va, level)).frame, va, lvl))
  }

  /** No huge page lies on the way down to level `lvl`. */
  predicate NoHuge(mem: map<nat, seq<Entry>>, level: nat, t: nat, va: VA, lvl: nat)
    decreases level
  {
    level <= lvl
    || !At(mem, t, Idx(va, level)).present
    || (!At(mem, t, Idx(va, level)).bit7 && NoHuge(mem, level - 1, At(mem, t, Idx(va, level)).frame, va, lvl))
  }

  /** How many tables are missing on the way down to level `lvl`. */
  function Missing(mem: map<nat, seq<Entry>>, level: nat, t: nat, va: VA, lvl: nat): (k: nat)
    ensures k <= if level > lvl then level - lvl else 0
    decreases level
  {
    if level <= lvl then 0
    else if !At(mem, t, Idx(va, level)).present then level - lvl
    else Missing(mem, level - 1, At(mem, t, Idx(va, level)).frame, va, lvl)
  }

  /** Prepare every level above `lvl`. */
  ghost function Prepare(v: Vm, level: nat, t: nat, va: VA, lvl: nat, user: bool): (Vm, nat)
    requires CanPrepare(v, level, t, va, lvl, user)
    decreases level
  {
    hide VmInv, UserReady, Ensure, NoHuge, Missing, Extends, SameTranslations;
    if level == lvl then (v, t)
    else
      PrepareStep(v, level, t, va, lvl, user);
      var v1 := Ensure(v, t, Idx(va, level), user);
      Prepare(v1, level - 1, At(v1.mem, t, Idx(va, level)).frame, va, lvl, user)
  }

  ghost predicate CanPrepare(v: Vm, level: nat, t: nat, va: VA, lvl: nat, user: bool) {
    && VmInv(v) && 1 <= lvl <= level <= 4 && IsTable(v, t, level) && Proper(va)
    && NoHuge(v.mem, level, t, va, lvl)
    && (user ==> UserReady(v, t) && (level == 4 ==> va.i4 < KERNEL_HALF))
    && |v.free| >= Missing(v.mem, level, t, va, lvl)
  }

  lemma PrepareStep(v: Vm, level: nat, t: nat, va: VA, lvl: nat, user: bool)
    requires CanPrepare(v, level, t, va, lvl, user) && lvl < level
    ensures CanEnsure(v, t, Idx(va, level), user)
    ensures var v1 := Ensure(v, t, Idx(va, level), user);
            && CanPrepare(v1, level - 1, At(v1.mem, t, Idx(va, level)).frame, va, lvl, user)
            && Extends(v, v1) && SameTranslations(v, v1)
  {
    hide Ensure, Lowest, UserReady, VmInv, UserClosed, SameTranslations, Extends;
    var i := Idx(va, level);
    EnsureSound(v, t, i, user);
    EnsureExtends(v, t, i, user);
    EnsureAt(v, t, i, user);
    var v1 := Ensure(v, t, i, user);
    if At(v.mem, t, i).present {
      NoHugeSame(v, v1, t, i, level - 1, At(v.mem, t, i).frame, va, lvl);
      MissingSame(v, v1, t, i, level - 1, At(v.mem, t, i).frame, va, lvl);
    } else {
      assert NoHuge(v1.mem, level - 1, At(v1.mem, t, i).frame, va, lvl) by {
        assert forall j :: At(v1.mem, At(v1.mem, t, i).frame, j) == ZERO;
      }
    }
  }

  lemma {:induction false} MissingSame(v: Vm, v1: Vm, s: nat, k: nat, level: nat, t: nat, va: VA, lvl: nat)
    requires VmInv(v) && IsTable(v, t, level) && Proper(va) && NoHuge(v.mem, level, t, va, lvl)
    requires s in v.roles && v.roles[s].level > level
    requires forall x, j :: x in v.roles && !(x == s && j == k) ==> At(v1.mem, x, j) == At(v.mem, x, j)
    ensures Missing(v1.mem, level, t, va, lvl) == Missing(v.mem, level, t, va, lvl)
    decreases level
  {
    var i := Idx(va, level);
    assert At(v1.mem, t, i) == At(v.mem, t, i);
    if level > lvl && At(v.mem, t, i).present && level >= 2 {
      assert Points(v, t, i) && ChildOK(v, t, i);
      MissingSame(v, v1, s, k, level - 1, At(v.mem, t, i).frame, va, lvl);
    }
  }

  lemma {:induction false} NoHugeSame(v: Vm, v1: Vm, s: nat, k: nat, level: nat, t: nat, va: VA, lvl: nat)
    requires VmInv(v) && IsTable(v, t, level) && Proper(va) && NoHuge(v.mem, level, t, va, lvl)
    requires s in v.roles && v.roles[s].level > level
    requires forall x, j :: x in v.roles && !(x == s && j == k) ==> At(v1.mem, x, j) == At(v.mem, x, j)
    ensures NoHuge(v1.mem, level, t, va, lvl)
    decreases level
  {
    var i := Idx(va, level);
    assert At(v1.mem, t, i) == At(v.mem, t, i);
    if level > lvl && At(v.mem, t, i).present && level >= 2 {
      assert Points(v, t, i) && ChildOK(v, t, i);
      NoHugeSame(v, v1, s, k, level - 1, At(v.mem, t, i).frame, va, lvl);
    }
  }

  /** Frames that became tables are exactly the frames that are no longer free, n of them. */
  ghost predicate Accounts(v: Vm, v': Vm, n: nat) {
    && v.roles.Keys <= v'.roles.Keys
    && v'.roles.Keys - v.roles.Keys <= v.free
    && v'.free == v.free - (v'.roles.Keys - v.roles.Keys)
    && |v'.free| + n == |v.free|
  }

  lemma EnsureAccounts(v: Vm, t: nat, i: nat, user: bool)
    requires CanEnsure(v, t, i, user)
    ensures Accounts(v, Ensure(v, t, i, user), if At(v.mem, t, i).present then 0 else 1)
  {
    hide VmInv, UserReady;
    EnsureAt(v, t, i, user);
    if !At(v.mem, t, i).present {
      var n := Lowest(v.free);
      assert (v.roles[n := Role(v.roles[t].level - 1, t, i)]).Keys - v.roles.Keys == {n};
    } else {
      assert v.roles.Keys - v.roles.Keys == {};
    }
  }

  lemma AccountsAdd(v: Vm, v1: Vm, v2: Vm, n: nat, k: nat)
    requires Accounts(v, v1, n) && Accounts(v1, v2, k)
    ensures Accounts(v, v2, n + k)
  {
    GrowTwice(v.roles.Keys, v1.roles.Keys, v2.roles.Keys, v.free, v1.free, v2.free);
  }

  lemma GrowTwice(a: set<nat>, b: set<nat>, c: set<nat>, f: set<nat>, f1: set<nat>, f2: set<nat>)
    requires a <= b <= c && b - a <= f && f1 == f - (b - a) && c - b <= f1 && f2 == f1 - (c - b)
    ensures c - a <= f && f2 == f - (c - a)
  {
    assert c - a == (c - b) + (b - a);
  }

  /** Descending takes exactly the frames of the missing tables. */
  lemma {:induction false} PrepareAccounts(v: Vm, level: nat, t: nat, va: VA, lvl: nat, user: bool)
    requires CanPrepare(v, level, t, va, lvl, user)
    ensures Accounts(v, Prepare(v, level, t, va, lvl, user).0, Missing(v.mem, level, t, va, lvl))
    decreases level
  {
    hide Accounts, VmInv, UserReady, NoHuge, Ensure;
    if level > lvl {
      PrepareStep(v, level, t, va, lvl, user);
      var i := Idx(va, level);
      EnsureAccounts(v, t, i, user);
      var v1 := Ensure(v, t, i, user);
      var c := At(v1.mem, t, i).frame;
      PrepareAccounts(v1, level - 1, c, va, lvl, user);
      MissingNext(v, level, t, va, lvl, user);
      AccountsAdd(v, v1, Prepare(v1, level - 1, c, va, lvl, user).0,
                  if At(v.mem, t, i).present then 0 else 1, Missing(v1.mem, level - 1, c, va, lvl));
    } else {
      AccountsSelf(v);
    }
  }

  /** One level prepared leaves the missing tables below it. */
  lemma MissingNext(v: Vm, level: nat, t: nat, va: VA, lvl: nat, user: bool)
    requires CanPrepare(v, level, t, va, lvl, user) && lvl < level && CanEnsure(v, t, Idx(va, level), user)
    ensures var i := Idx(va, level);
            var v1 := Ensure(v, t, i, user);
            Missing(v.mem, level, t, va, lvl) ==
              (if At(v.mem, t, i).present then 0 else 1) + Missing(v1.mem, level - 1, At(v1.mem, t, i).frame, va, lvl)
  {
    hide VmInv, UserReady, Ensure;
    var i := Idx(va, level);
    EnsureAt(v, t, i, user);
    var v1 := Ensure(v, t, i, user);
    if At(v.mem, t, i).present {
      assert Points(v, t, i) && ChildOK(v, t, i) by { SlotChild(v, level, t, i); }
      MissingSame(v, v1, t, i, level - 1, At(v.mem, t, i).frame, va, lvl);
    } else {
      assert forall j :: At(v1.mem, At(v1.mem, t, i).frame, j) == ZERO;
    }
  }

  lemma SlotChild(v: Vm, level: nat, t: nat, i: nat)
    requires VmInv(v) && IsTable(v, t, level) && 2 <= level && i < ENTRIES && At(v.mem, t, i).present && !At(v.mem, t, i).bit7
    ensures Points(v, t, i) && ChildOK(v, t, i)
  {
  }

  lemma AccountsSelf(v: Vm)
    ensures Accounts(v, v, 0)
  {
    assert v.roles.Keys - v.roles.Keys == {};
    assert v.free - {} == v.free;
  }

  lemma ExtendsTransitive(v: Vm, v1: Vm, v2: Vm)
    requires Extends(v, v1) && Extends(v1, v2)
    ensures Extends(v, v2)
  {
  }

  lemma SameTranslationsTransitive(v: Vm, v1: Vm, v2: Vm)
    requires SameTranslations(v, v1) && SameTranslations(v1, v2) && Extends(v, v1)
    ensures SameTranslations(v, v2)
  {
    hide Translate;
  }

  /** Descending prepares the path and changes no translation. */
  lemma {:induction false} PrepareSound(v: Vm, level: nat, t: nat, va: VA, lvl: nat, user: bool)
    requires CanPrepare(v, level, t, va, lvl, user)
    ensures var (v', s) := Prepare(v, level, t, va, lvl, user);
            && VmInv(v') && IsTable(v', s, lvl) && Extends(v, v') && SameTranslations(v, v')
            && PathTable(v'.mem, level, t, va, lvl) == Some(s)
            && (user ==> UserReady(v', s) && PathUser(v'.mem, level, t, va, lvl))
            && v'.free <= v.free
    decreases level
  {
    hide Ensure, Lowest, UserReady, VmInv, SameTranslations, Extends, NoHuge, UserEntry;
    if level > lvl {
      PrepareStep(v, level, t, va, lvl, user);
      var i := Idx(va, level);
      EnsureSound(v, t, i, user);
      var v1 := Ensure(v, t, i, user);
      var c := At(v1.mem, t, i).frame;
      PrepareSound(v1, level - 1, c, va, lvl, user);
      var (v', s) := Prepare(v1, level - 1, c, va, lvl, user);
      ExtendsTransitive(v, v1, v');
      SameTranslationsTransitive(v, v1, v');
      ExtendsAt(v1, v', t, i);
      hide CanPrepare, At;
    } else {
      ExtendsSelf(v);
    }
  }

  lemma ExtendsAt(v: Vm, v': Vm, x: nat, j: nat)
    requires Extends(v, v') && Points(v, x, j)
    ensures KeepsSlot(v, v', x, j)
  {
  }

  lemma ExtendsSelf(v: Vm)
    ensures Extends(v, v) && SameTranslations(v, v)
  {
    hide Translate;
  }
}
