/** The scheduler on values: a ready ring, a dead list, saved stack pointers and the address space in use. */
module Scheduling {
  import opened Basics
  import opened Sequences

  datatype State = Ready | Running | Blocked | Dead

  /** thread_t without its list links; `top` is the end of its kernel stack. */
  datatype Thread = Thread(rsp: nat, state: State, process: Pointer, top: nat)

  /** process_t: the root of its page tables and its list of user stacks. */
  datatype Process = Process(pml4: nat, stacks: Pointer)

  /** The scheduler's globals. `ring` is the ready list read from its head, `dead` the dead list, and `doomed` the
      threads cleanup_dead_threads has taken off it and not handed over yet; `stacks` is us_list_head, and `rsp0` the kernel stack the processor would switch to. */
  datatype Sched = Sched(ring: seq<nat>, dead: seq<nat>, doomed: seq<nat>, current: nat, threads: map<nat, Thread>,
                         procs: map<nat, Process>, stacks: Pointer, cr3: nat, rsp0: nat)

  datatype Outcome = Resume(s: Sched, rsp: nat) | Hang

  /** What the code relies on when it follows its pointers. */
  ghost predicate WF(s: Sched) {
    && Distinct(s.ring) && s.current in s.ring
    && (forall t :: t in s.ring ==> t in s.threads)
    && (forall t :: t in s.threads ==> KnownProcess(s, s.threads[t].process))
  }

  predicate KnownProcess(s: Sched, p: Pointer) { p.To? ==> p.id in s.procs }

  // ---------- scheduler_handler ----------

  predicate CanRun(s: Sched, t: nat) {
    t in s.threads && (s.threads[t].state == Ready || s.threads[t].state == Running)
  }

  /** The search loop: the position of the first thread that can run, from position `start` once around the ring, or
      the ring's length when there is none. */
  function Pick(s: Sched, start: nat, j: nat): (i: nat)
    requires start < |s.ring| && j <= |s.ring|
    ensures i == |s.ring| || (i < |s.ring| && CanRun(s, s.ring[i]))
    decreases |s.ring| - j
  {
    if j == |s.ring| then j
    else
      var i := Around(start + j, |s.ring|);
      if CanRun(s, s.ring[i]) then i else Pick(s, start, j + 1)
  }

  /** Position i on a ring of n, at most once around. */
  function Around(i: nat, n: nat): (r: nat)
    requires i < 2 * n
    ensures r < n
  {
    if i < n then i else i - n
  }

  /** The user-stack list and the page tables follow the process; kernel threads keep the page tables in use. */
  function SwitchProcess(s: Sched, prev: Pointer, next: Pointer): Sched
    requires KnownProcess(s, prev) && KnownProcess(s, next)
  {
    if prev == next then s
    else
      var s1 := if prev.To? then s.(procs := s.procs[prev.id := s.procs[prev.id].(stacks := s.stacks)]) else s;
      if next.To? then s1.(stacks := s1.procs[next.id].stacks, cr3 := s1.procs[next.id].pml4)
      else s1.(stacks := Null)
  }

  /** Thread t gets the processor. */
  function Enter(s: Sched, prev: nat, t: nat): Sched
    requires prev in s.threads && t in s.threads && KnownProcess(s, s.threads[prev].process) && KnownProcess(s, s.threads[t].process)
  {
    var s1 := s.(threads := s.threads[t := s.threads[t].(state := Running)], current := t);
    SwitchProcess(s1, s.threads[prev].process, s.threads[t].process).(rsp0 := s.threads[t].top)
  }

  /** The old thread leaves: a dead one moves to the dead list, a blocked one just leaves the ring, any other stays as ready. */
  function Leave(s: Sched, rsp: nat): (r: Sched)
    requires s.current in s.threads && s.current in s.ring
    ensures r.procs == s.procs && r.threads.Keys == s.threads.Keys
    ensures forall t :: t in s.threads ==> r.threads[t].process == s.threads[t].process
    ensures forall t :: t in s.threads && KnownProcess(s, s.threads[t].process) ==> KnownProcess(r, r.threads[t].process)
  {
    var prev := s.current;
    match s.threads[prev].state
    case Dead => s.(ring := Without(s.ring, prev), dead := [prev] + s.dead)
    case Blocked => s.(ring := Without(s.ring, prev), threads := s.threads[prev := s.threads[prev].(rsp := rsp)])
    case _ => s.(threads := s.threads[prev := s.threads[prev].(rsp := rsp, state := Ready)])
  }

  function Without(ring: seq<nat>, t: nat): (r: seq<nat>)
    requires t in ring
    ensures |r| == |ring| - 1
  {
    if ring[0] == t then ring[1..] else [ring[0]] + Without(ring[1..], t)
  }

  function IndexOf(ring: seq<nat>, t: nat): (i: nat)
    requires t in ring
    ensures i < |ring| && ring[i] == t
  {
    if ring[0] == t then 0 else 1 + IndexOf(ring[1..], t)
  }

  /** scheduler_handler, given the stack pointer of the interrupted thread: the stack pointer to go on with. */
  function Handle(s: Sched, rsp: nat): Outcome
    requires s.current in s.ring && forall t :: t in s.ring ==> t in s.threads
    requires forall t :: t in s.threads ==> KnownProcess(s, s.threads[t].process)
  {
    if |s.ring| <= 1 then Resume(s, rsp)
    else
      var prev := s.current;
      var gone := s.threads[prev].state == Dead || s.threads[prev].state == Blocked;
      var s1 := Leave(s, rsp);
      var start := if gone then 0 else Around(IndexOf(s.ring, prev) + 1, |s.ring|);
      var i := Pick(s1, start, 0);
      if i == |s1.ring| then
        if gone then Hang else Resume(s1.(threads := s1.threads[prev := s1.threads[prev].(state := Running)]), rsp)
      else
        var t := s1.ring[i];
        Resume(Enter(s1, prev, t), s1.threads[t].rsp)
  }

  // ---------- the invariant ----------

  /** Exactly one thread is running, the current one; the others in the ring are ready. */
  ghost predicate OneRunning(s: Sched) {
    forall t :: t in s.threads ==>
      && (t in s.ring ==> s.threads[t].state == if t == s.current then Running else Ready)
      && (t !in s.ring && t !in s.dead && t !in s.doomed ==> s.threads[t].state == Ready || s.threads[t].state == Blocked)
  }

  ghost predicate DeadApart(s: Sched) {
    && Distinct(s.dead) && Distinct(s.doomed)
    && (forall t :: t in s.dead ==> t !in s.doomed)
    && forall t :: t in s.dead || t in s.doomed ==> t in s.threads && s.threads[t].state == Dead && t !in s.ring
  }

  /** With `p` the process on the processor and `own` each process's list of user stacks: a user process has its own page
      tables and its own list in place, a kernel thread an empty list; every other process has its list stored away. */
  ghost predicate ContextFor(s: Sched, p: Pointer, own: map<nat, Pointer>) {
    && own.Keys == s.procs.Keys && KnownProcess(s, p)
    && (if p.To? then s.cr3 == s.procs[p.id].pml4 && s.stacks == own[p.id] else s.stacks == Null)
    && forall q :: q in s.procs && p != To(q) ==> s.procs[q].stacks == own[q]
  }

  ghost predicate ContextOK(s: Sched, own: map<nat, Pointer>) {
    s.current in s.threads && ContextFor(s, s.threads[s.current].process, own)
  }

  /** `main` and `idle` are the two threads that never leave the ring. */
  ghost predicate SchedInv(s: Sched, main: nat, idle: nat) {
    && WF(s) && OneRunning(s) && DeadApart(s)
    && main != idle && main in s.ring && idle in s.ring
  }

  lemma AtLeastTwo(s: Sched, main: nat, idle: nat)
    requires SchedInv(s, main, idle)
    ensures |s.ring| >= 2
  {
    var i :| 0 <= i < |s.ring| && s.ring[i] == main;
    var j :| 0 <= j < |s.ring| && s.ring[j] == idle;
  }

  // ---------- leaving the ring ----------

  lemma {:induction false} WithoutIs(ring: seq<nat>, t: nat)
    requires t in ring
    ensures Without(ring, t) == Removed(ring, IndexOf(ring, t))
  {
    if ring[0] != t {
      WithoutIs(ring[1..], t);
      var k := IndexOf(ring[1..], t);
      assert Removed(ring, k + 1) == [ring[0]] + Removed(ring[1..], k);
    }
  }

  lemma WithoutElements(ring: seq<nat>, t: nat)
    requires Distinct(ring) && t in ring
    ensures Distinct(Without(ring, t)) && forall x :: x in Without(ring, t) <==> x in ring && x != t
  {
    hide Distinct, Removed, Without;
    var k := IndexOf(ring, t);
    WithoutIs(ring, t);
    RemovedDistinct(ring, k);
    forall x
      ensures x in Removed(ring, k) <==> x in ring && x != t
    {
      RemovedMembers(ring, k, x);
    }
  }

  // ---------- one call of the handler ----------

  /** The current thread marked as `m` before the handler is called: by thread_exit or mutex_lock, or not at all. */
  function Mark(s: Sched, m: State): Sched
    requires s.current in s.threads
  {
    s.(threads := s.threads[s.current := s.threads[s.current].(state := m)])
  }

  /** A call of the handler with the current thread marked so. */
  ghost function HandleAs(s: Sched, m: State, rsp: nat): Outcome
    requires WF(s)
  {
    Handle(Mark(s, m), rsp)
  }

  /** The thread that follows: the next one on the ring, or the head of the ring when the current one leaves it. */
  function Successor(s: Sched, m: State): nat
    requires s.current in s.ring && |s.ring| >= 2
  {
    if m == Dead || m == Blocked then Without(s.ring, s.current)[0]
    else s.ring[Around(IndexOf(s.ring, s.current) + 1, |s.ring|)]
  }

  lemma SuccessorOther(s: Sched, m: State)
    requires Distinct(s.ring) && s.current in s.ring && |s.ring| >= 2
    ensures Successor(s, m) in s.ring && Successor(s, m) != s.current
  {
    WithoutElements(s.ring, s.current);
    var k := IndexOf(s.ring, s.current);
    DistinctAt(s.ring, k, Around(k + 1, |s.ring|));
  }

  /** The handler always finds its successor at once. */
  lemma HandleIs(s: Sched, m: State, rsp: nat)
    requires WF(s) && OneRunning(s) && |s.ring| >= 2
    ensures var t := Successor(s, m);
            && t in s.ring && t != s.current && t in s.threads
            && Handle(Mark(s, m), rsp) == Resume(Enter(Leave(Mark(s, m), rsp), s.current, t), s.threads[t].rsp)
  {
    SuccessorOther(s, m);
    hide Enter, Distinct;
    var s0 := Mark(s, m);
    var s1, t := Leave(s0, rsp), Successor(s, m);
    assert s1.threads[t] == s.threads[t] && CanRun(s1, t);
    hide Leave, OneRunning;
    var start := if m == Dead || m == Blocked then 0 else Around(IndexOf(s.ring, s.current) + 1, |s.ring|);
    assert s1.ring[start] == t && Pick(s1, start, 0) == start by { assert s1.ring == if m == Dead || m == Blocked then Without(s.ring, s.current) else s.ring; }
  }

  // ---------- the search, whatever states the threads are in ----------

  /** The thread d places after position `start` on the ring. */
  function Nth(ring: seq<nat>, start: nat, d: nat): nat
    requires start < |ring| && d < |ring|
  {
    ring[Around(start + d, |ring|)]
  }

  /** Thread x is the first that can run, at least j places after `start`. */
  ghost predicate FirstFrom(s: Sched, start: nat, j: nat, x: nat)
    requires start < |s.ring|
  {
    exists d: nat :: j <= d < |s.ring| && x == Nth(s.ring, start, d) && CanRun(s, x) && NoneUpTo(s, start, j, d)
  }

  ghost predicate NoneUpTo(s: Sched, start: nat, j: nat, d: nat)
    requires start < |s.ring| && d <= |s.ring|
  {
    forall e: nat :: j <= e < d ==> !CanRun(s, Nth(s.ring, start, e))
  }

  /** The search stops at the first thread that can run, counted from where it starts. */
  lemma {:induction false} PickFirst(s: Sched, start: nat, j: nat)
    requires start < |s.ring| && j <= |s.ring|
    ensures var i := Pick(s, start, j);
            if i == |s.ring| then NoneUpTo(s, start, j, |s.ring|) else FirstFrom(s, start, j, s.ring[i])
    decreases |s.ring| - j
  {
    if j < |s.ring| {
      var i := Pick(s, start, j);
      if CanRun(s, Nth(s.ring, start, j)) {
        assert NoneUpTo(s, start, j, j) && s.ring[i] == Nth(s.ring, start, j);
      } else {
        PickFirst(s, start, j + 1);
        if i < |s.ring| {
          var d: nat :| j + 1 <= d < |s.ring| && s.ring[i] == Nth(s.ring, start, d) && CanRun(s, s.ring[i]) && NoneUpTo(s, start, j + 1, d);
          assert NoneUpTo(s, start, j, d);
        }
      }
    }
  }

  /** Every thread on the ring is reached by the search. */
  lemma NoneAtAll(s: Sched, start: nat)
    requires start < |s.ring| && NoneUpTo(s, start, 0, |s.ring|)
    ensures forall t :: t in s.ring ==> !CanRun(s, t)
  {
    forall t | t in s.ring
      ensures !CanRun(s, t)
    {
      var i :| 0 <= i < |s.ring| && s.ring[i] == t;
      assert t == Nth(s.ring, start, if start <= i then i - start else i + |s.ring| - start);
    }
  }

  /** Where the search starts, once the current thread has left. */
  function SearchStart(s: Sched, m: State): nat
    requires s.current in s.ring
  {
    if m == Dead || m == Blocked then 0 else Around(IndexOf(s.ring, s.current) + 1, |s.ring|)
  }

  lemma HandleCases(s: Sched, m: State, rsp: nat)
    requires WF(s) && |s.ring| >= 2
    ensures var s1, h := Leave(Mark(s, m), rsp), Handle(Mark(s, m), rsp);
            && s.current in s.ring && SearchStart(s, m) < |s1.ring|
            && var i := Pick(s1, SearchStart(s, m), 0);
               if i < |s1.ring| then
                 && s1.ring[i] in s1.threads && h.Resume? && h.s.current == s1.ring[i] && h.rsp == s1.threads[s1.ring[i]].rsp
               else (h.Hang? <==> m == Dead || m == Blocked)
  {
    hide Distinct, Pick, Enter, Without, IndexOf, Around;
    LeaveThreads(s, m, rsp);
    LeaveContext(s, m, rsp);
    var s1 := Leave(Mark(s, m), rsp);
    var i := Pick(s1, SearchStart(s, m), 0);
    if i < |s1.ring| {
      assert KnownProcess(s1, s1.threads[s1.ring[i]].process);
      EnterThreads(s1, s.current, s1.ring[i]);
    }
  }

  /** Whatever states the threads are in: with at least two on the ring the code loops for ever exactly if the current one leaves
      it and no other can run; otherwise the first that can run goes on, counted from the next one, or from the head of the ring
      when the current one left it. */
  lemma HandleFinds(s: Sched, m: State, rsp: nat)
    requires WF(s) && |s.ring| >= 2
    ensures var s1, h := Leave(Mark(s, m), rsp), Handle(Mark(s, m), rsp);
            && (h.Hang? <==> (m == Dead || m == Blocked) && forall t :: t in s.ring && t != s.current ==> !CanRun(s, t))
            && s.current in s.ring && SearchStart(s, m) < |s1.ring|
            && (h.Resume? ==> h.s.current in s1.threads && FirstFrom(s1, SearchStart(s, m), 0, h.s.current) && h.rsp == s1.threads[h.s.current].rsp)
  {
    hide Distinct, Handle, Leave, Pick, Without, NoneUpTo, FirstFrom, IndexOf;
    var s1 := Leave(Mark(s, m), rsp);
    HandleCases(s, m, rsp);
    LeaveThreads(s, m, rsp);
    WithoutElements(s.ring, s.current);
    PickFirst(s1, SearchStart(s, m), 0);
    if Pick(s1, SearchStart(s, m), 0) == |s1.ring| {
      if m != Dead && m != Blocked { assert CanRun(s1, s.current); }
      NoneAtAll(s1, SearchStart(s, m));
    } else {
      var t := s1.ring[Pick(s1, SearchStart(s, m), 0)];
      assert CanRun(s1, t) && t in s1.ring;
      if t != s.current { assert t in s.ring && CanRun(s, t); }
    }
  }

  /** The thread that left the processor as `m`. */
  function Left(t: Thread, m: State, rsp: nat): Thread {
    if m == Dead then t.(state := Dead)
    else if m == Blocked then t.(state := Blocked, rsp := rsp)
    else t.(state := Ready, rsp := rsp)
  }

  /** Thread x after a call that took the current thread off the processor as `m` and gave it to t. */
  function Moved(s: Sched, m: State, rsp: nat, t: nat, x: nat): Thread
    requires x in s.threads
  {
    if x == t then s.threads[x].(state := Running)
    else if x == s.current then Left(s.threads[x], m, rsp)
    else s.threads[x]
  }

  /** What a call leaves behind, apart from the processes. */
  lemma HandleThreads(s: Sched, m: State, rsp: nat)
    requires WF(s) && OneRunning(s) && |s.ring| >= 2
    ensures var s', t := Handle(Mark(s, m), rsp).s, Successor(s, m);
            && t in s.threads && t in s.ring && t != s.current
            && Handle(Mark(s, m), rsp) == Resume(s', s.threads[t].rsp)
            && s'.current == t && s'.rsp0 == s.threads[t].top
            && s'.ring == (if m == Dead || m == Blocked then Without(s.ring, s.current) else s.ring)
            && s'.dead == (if m == Dead then [s.current] + s.dead else s.dead) && s'.doomed == s.doomed
            && s'.threads.Keys == s.threads.Keys
            && forall x :: x in s.threads ==> s'.threads[x] == Moved(s, m, rsp, t, x)
  {
    hide Distinct, Handle, Successor, OneRunning, Without, SwitchProcess, Leave, Enter, Mark;
    HandleIs(s, m, rsp);
    LeaveThreads(s, m, rsp);
    LeaveContext(s, m, rsp);
    EnterThreads(Leave(Mark(s, m), rsp), s.current, Successor(s, m));
  }

  /** The same from the place of the current thread on the ring: a thread that exits or blocks leaves its place and the head of the
      ring follows, any other thread stays ready at its place and the next one follows. */
  lemma HandleInPlace(s: Sched, m: State, rsp: nat, i: nat)
    requires WF(s) && OneRunning(s) && |s.ring| >= 2 && i < |s.ring| && s.ring[i] == s.current
    requires m == Running || m == Dead || m == Blocked
    ensures var t := if m != Running then (if i == 0 then s.ring[1] else s.ring[0]) else s.ring[(i + 1) % |s.ring|];
            var h := Handle(Mark(s, m), rsp);
            && t in s.threads && t != s.current && s.current in s.threads
            && h.Resume? && h.rsp == s.threads[t].rsp && h.s.current == t && h.s.rsp0 == s.threads[t].top
            && h.s.ring == (if m != Running then s.ring[..i] + s.ring[i + 1..] else s.ring)
            && h.s.dead == (if m == Dead then [s.current] + s.dead else s.dead) && h.s.doomed == s.doomed
            && h.s.threads == s.threads[s.current := Thread(if m == Dead then s.threads[s.current].rsp else rsp, if m == Running then Ready else m,
                                                            s.threads[s.current].process, s.threads[s.current].top)]
                                       [t := s.threads[t].(state := Running)]
  {
    hide Distinct, Handle, Without, OneRunning, IndexOf, Mark, Around, KnownProcess;
    HandleThreads(s, m, rsp);
    MovedThreads(s, m, rsp);
    PlaceIs(s.ring, s.current, i);
  }

  lemma PlaceIs(ring: seq<nat>, t: nat, i: nat)
    requires Distinct(ring) && i < |ring| && ring[i] == t
    ensures IndexOf(ring, t) == i && Without(ring, t) == ring[..i] + ring[i + 1..] && Around(i + 1, |ring|) == (i + 1) % |ring|
  {
    hide Distinct, Without;
    WithoutIs(ring, t);
    DistinctAt(ring, IndexOf(ring, t), i);
    NextPlace(i, |ring|);
  }

  lemma NextPlace(i: nat, n: nat)
    requires i < n
    ensures Around(i + 1, n) == (i + 1) % n
  {
  }

  /** The threads after a call, one by one. */
  lemma MovedThreads(s: Sched, m: State, rsp: nat)
    requires WF(s) && OneRunning(s) && |s.ring| >= 2 && (m == Running || m == Dead || m == Blocked)
    ensures var t, s' := Successor(s, m), Handle(Mark(s, m), rsp).s;
            && t in s.threads && t != s.current && s.current in s.threads
            && s'.threads == s.threads[s.current := Thread(if m == Dead then s.threads[s.current].rsp else rsp, if m == Running then Ready else m,
                                                           s.threads[s.current].process, s.threads[s.current].top)]
                                      [t := s.threads[t].(state := Running)]
  {
    hide Distinct, Handle, Without, OneRunning, IndexOf, Successor;
    HandleThreads(s, m, rsp);
    var t, s' := Successor(s, m), Handle(Mark(s, m), rsp).s;
    forall x | x in s.threads
      ensures s'.threads[x] == if x == t then s.threads[t].(state := Running) else if x == s.current then Left(s.threads[x], m, rsp) else s.threads[x]
    {
      assert s'.threads[x] == Moved(s, m, rsp, t, x);
    }
  }

  lemma LeaveThreads(s: Sched, m: State, rsp: nat)
    requires s.current in s.threads && s.current in s.ring
    ensures Mark(s, m).current == s.current && Mark(s, m).ring == s.ring && Mark(s, m).threads.Keys == s.threads.Keys
    ensures var r := Leave(Mark(s, m), rsp);
            && r.ring == (if m == Dead || m == Blocked then Without(s.ring, s.current) else s.ring)
            && r.dead == (if m == Dead then [s.current] + s.dead else s.dead) && r.doomed == s.doomed
            && r.threads.Keys == s.threads.Keys
            && forall x :: x in s.threads ==> r.threads[x] == if x == s.current then Left(s.threads[x], m, rsp) else s.threads[x]
  {
    hide Without;
  }

  lemma EnterThreads(s: Sched, prev: nat, t: nat)
    requires prev in s.threads && t in s.threads && KnownProcess(s, s.threads[prev].process) && KnownProcess(s, s.threads[t].process)
    ensures var r := Enter(s, prev, t);
            && r.ring == s.ring && r.dead == s.dead && r.doomed == s.doomed && r.current == t && r.rsp0 == s.threads[t].top
            && r.threads == s.threads[t := s.threads[t].(state := Running)]
  {
  }

  lemma HandleKeepsRing(s: Sched, m: State, rsp: nat)
    requires WF(s) && OneRunning(s) && |s.ring| >= 2
    ensures var s' := Handle(Mark(s, m), rsp).s;
            && Distinct(s'.ring) && s'.current in s'.ring && OneRunning(s') && |s'.ring| + 1 >= |s.ring|
            && forall x :: x in s'.ring ==> x in s'.threads && x in s.ring
  {
    hide Handle, Successor, Distinct, Without;
    HandleThreads(s, m, rsp);
    WithoutElements(s.ring, s.current);
  }

  lemma HandleKeepsDead(s: Sched, m: State, rsp: nat)
    requires WF(s) && OneRunning(s) && DeadApart(s) && |s.ring| >= 2
    ensures DeadApart(Handle(Mark(s, m), rsp).s)
  {
    hide Handle, Successor, Distinct, Without;
    HandleThreads(s, m, rsp);
    WithoutElements(s.ring, s.current);
    if s.current !in s.dead { PushDistinct(s.dead, s.current); }
  }

  /** The process on the processor stores its list of user stacks when another process follows. */
  function Stored(s: Sched, p: Pointer, q: Pointer, x: nat): Process
    requires x in s.procs
  {
    if p != q && p == To(x) then Process(s.procs[x].pml4, s.stacks) else s.procs[x]
  }

  lemma SwitchIs(s: Sched, p: Pointer, q: Pointer)
    requires KnownProcess(s, p) && KnownProcess(s, q)
    ensures var s' := SwitchProcess(s, p, q);
            && s'.cr3 == (if q.To? && q != p then s.procs[q.id].pml4 else s.cr3)
            && s'.stacks == (if q == p then s.stacks else if q.To? then s.procs[q.id].stacks else Null)
            && s'.procs.Keys == s.procs.Keys && forall x :: x in s.procs ==> s'.procs[x] == Stored(s, p, q, x)
  {
  }

  /** What a call does to page tables, stack lists and processes: page tables change only when another user process follows, so a
      kernel thread goes on with those in use, and no process ever gets other page tables. */
  lemma HandleContext(s: Sched, m: State, rsp: nat)
    requires WF(s) && OneRunning(s) && |s.ring| >= 2
    ensures var s', t := Handle(Mark(s, m), rsp).s, Successor(s, m);
            && t in s.threads && s.current in s.threads
            && var p, q := s.threads[s.current].process, s.threads[t].process;
               && KnownProcess(s, q)
               && s'.cr3 == (if q.To? && q != p then s.procs[q.id].pml4 else s.cr3)
               && s'.stacks == (if q == p then s.stacks else if q.To? then s.procs[q.id].stacks else Null)
               && s'.procs.Keys == s.procs.Keys && forall x :: x in s.procs ==> s'.procs[x] == Stored(s, p, q, x)
  {
    hide Distinct, Handle, Successor, OneRunning, Without, Leave, SwitchProcess;
    HandleIs(s, m, rsp);
    LeaveContext(s, m, rsp);
    var s1, t := Leave(Mark(s, m), rsp), Successor(s, m);
    SwitchIs(s1.(threads := s1.threads[t := s1.threads[t].(state := Running)], current := t), s.threads[s.current].process, s.threads[t].process);
  }

  lemma SwitchKeepsContext(s: Sched, p: Pointer, q: Pointer, own: map<nat, Pointer>)
    requires ContextFor(s, p, own) && KnownProcess(s, q)
    ensures ContextFor(SwitchProcess(s, p, q), q, own) && SwitchProcess(s, p, q).procs.Keys == s.procs.Keys
  {
  }

  lemma HandleKeepsContext(s: Sched, m: State, rsp: nat, own: map<nat, Pointer>)
    requires WF(s) && OneRunning(s) && |s.ring| >= 2 && ContextOK(s, own)
    ensures ContextOK(Handle(Mark(s, m), rsp).s, own)
  {
    hide Distinct, Handle, Successor, OneRunning, Without, SwitchProcess, Leave, ContextFor, Enter;
    HandleThreads(s, m, rsp);
    HandleIs(s, m, rsp);
    LeaveContext(s, m, rsp);
    EnterContext(s, Leave(Mark(s, m), rsp), Successor(s, m), own);
  }

  lemma EnterContext(s: Sched, s1: Sched, t: nat, own: map<nat, Pointer>)
    requires s.current in s.threads && t in s.threads && ContextFor(s, s.threads[s.current].process, own)
    requires forall x :: x in s1.threads ==> KnownProcess(s1, s1.threads[x].process)
    requires s1.procs == s.procs && s1.stacks == s.stacks && s1.cr3 == s.cr3 && s1.threads.Keys == s.threads.Keys
    requires forall x :: x in s.threads ==> s1.threads[x].process == s.threads[x].process
    ensures ContextOK(Enter(s1, s.current, t), own)
  {
    hide SwitchProcess;
    var s2 := s1.(threads := s1.threads[t := s1.threads[t].(state := Running)], current := t);
    SwitchKeepsContext(s2, s.threads[s.current].process, s.threads[t].process, own);
    EnterThreads(s1, s.current, t);
  }

  /** A switch keeps the processes known. */
  lemma HandleKeepsKnown(s: Sched, m: State, rsp: nat)
    requires WF(s) && OneRunning(s) && |s.ring| >= 2
    ensures var s' := Handle(Mark(s, m), rsp).s;
            s'.procs.Keys == s.procs.Keys && forall t :: t in s'.threads ==> KnownProcess(s', s'.threads[t].process)
  {
    hide Distinct, Handle, Successor, OneRunning, Without, Leave, Enter;
    HandleThreads(s, m, rsp);
    HandleIs(s, m, rsp);
    LeaveContext(s, m, rsp);
    EnterKnown(s, Leave(Mark(s, m), rsp), Successor(s, m));
  }

  lemma EnterKnown(s: Sched, s1: Sched, t: nat)
    requires s.current in s.threads && t in s.threads && s1.procs == s.procs && s1.threads.Keys == s.threads.Keys
    requires forall x :: x in s1.threads ==> KnownProcess(s1, s1.threads[x].process)
    ensures var s' := Enter(s1, s.current, t);
            s'.procs.Keys == s.procs.Keys && forall x :: x in s'.threads ==> KnownProcess(s', s'.threads[x].process)
  {
    EnterThreads(s1, s.current, t);
  }

  lemma LeaveContext(s: Sched, m: State, rsp: nat)
    requires s.current in s.threads && s.current in s.ring
    ensures var r := Leave(Mark(s, m), rsp);
            && r.procs == s.procs && r.stacks == s.stacks && r.cr3 == s.cr3 && r.threads.Keys == s.threads.Keys
            && forall t :: t in s.threads ==> r.threads[t].process == s.threads[t].process
  {
  }

  /** Every call of the handler keeps the invariant, unless it takes main or idle off the ring. */
  lemma HandleKeepsInv(s: Sched, m: State, rsp: nat, main: nat, idle: nat)
    requires SchedInv(s, main, idle)
    requires m == Dead || m == Blocked ==> s.current != main && s.current != idle
    ensures Handle(Mark(s, m), rsp).Resume? && SchedInv(Handle(Mark(s, m), rsp).s, main, idle)
  {
    hide Handle, Successor, Distinct, Without, OneRunning, DeadApart, Moved;
    AtLeastTwo(s, main, idle);
    HandleThreads(s, m, rsp);
    HandleKeepsRing(s, m, rsp);
    HandleKeepsDead(s, m, rsp);
    HandleKeepsKnown(s, m, rsp);
    WithoutElements(s.ring, s.current);
  }
}
