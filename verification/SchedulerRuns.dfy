/** Whole runs of the single-CPU machine: timer ticks, yields, exits, blocking, new threads and processes, cleanup. */
module SchedulerRuns {
  import opened Basics
  import opened Sequences
  import opened Scheduling

  datatype Op =
    | Tick(rsp: nat)                 // timer interrupt or yield of a running thread
    | Exit                           // thread_exit
    | Block(rsp: nat)                // a contended mutex_lock
    | Wake(t: nat)                   // mutex_unlock makes a waiter ready
    | Spawn(t: nat, rsp: nat, top: nat)
    | SpawnUser(t: nat, p: nat, rsp: nat, top: nat, desc: nat) // `desc` describes the thread's user stack
    | SwapIn(p: nat)                 // the parts of the same call: list and page tables of p are put in place,
    | AddStack(desc: nat)            // the stack joins the list in place,
    | SwapBack(p: nat, list: Pointer, cr3: nat) // the list is stored with p and the old ones are put back,
    | EnqueueUser(t: nat, p: nat, rsp: nat, top: nat) // and the thread joins the ring
    | NewProcess(p: nat, pml4: nat)
    | Stacks(list: Pointer)          // the running user thread's process changes its list of user stacks
    | Detach                         // cleanup_dead_threads, run by the idle thread, takes the dead list
    | HandOver                       // its walk hands the next thread over, with interrupts enabled

  /** What can be seen from outside: who got the processor with which stack pointer, who left and how. */
  datatype Event =
    | Created(t: nat, rsp: nat)
    | Preempted(t: nat, rsp: nat)
    | Parked(t: nat, rsp: nat)
    | Woken(t: nat)
    | Exited(t: nat)
    | Entered(t: nat, rsp: nat)
    | Collected(t: nat)

  /** The scheduler and, kept beside it, each process's own list of user stacks. */
  datatype Machine = Machine(s: Sched, own: map<nat, Pointer>)

  ghost predicate MachineInv(m: Machine, main: nat, idle: nat) {
    SchedInv(m.s, main, idle)
  }

  /** The context is right: page tables and list in place are those of the running thread. */
  ghost predicate ContextInv(m: Machine) {
    ContextOK(m.s, m.own)
  }

  /** The process of the running thread. */
  function ProcessHere(s: Sched): Pointer {
    if s.current in s.threads then s.threads[s.current].process else Null
  }

  ghost predicate Legal(m: Machine, op: Op, main: nat, idle: nat) {
    match op
    case Tick(_) => true
    case Exit => m.s.current != main && m.s.current != idle
    case Block(_) => m.s.current != main && m.s.current != idle
    case Wake(t) => t in m.s.threads && t !in m.s.ring && t !in m.s.dead && t !in m.s.doomed
    case Spawn(t, _, _) => t !in m.s.threads
    case SpawnUser(t, p, _, _, desc) => t !in m.s.threads && p in m.s.procs && m.s.stacks != To(desc)
    case SwapIn(p) => p in m.s.procs
    case AddStack(_) => true
    case SwapBack(p, _, _) => p in m.s.procs
    case EnqueueUser(t, p, _, _) => t !in m.s.threads && p in m.s.procs
    case NewProcess(p, _) => p !in m.s.procs
    case Stacks(_) => ProcessHere(m.s).To?
    case Detach => m.s.current == idle && m.s.doomed == []
    case HandOver => m.s.current == idle && m.s.doomed != []
  }

  /** create_thread and the end of create_user_thread: the thread joins the ring at its tail. */
  function Enqueued(s: Sched, t: nat, th: Thread): Sched {
    s.(ring := s.ring + [t], threads := s.threads[t := th])
  }

  /** create_user_thread: the stack joins the list stored with the process, whether or not that process is running. */
  function UserSpawned(s: Sched, t: nat, p: nat, rsp: nat, top: nat, desc: nat): Sched
    requires p in s.procs
  {
    var list := NewHead(s.procs[p].stacks, desc);
    Enqueued(s.(procs := s.procs[p := s.procs[p].(stacks := list)]), t, Thread(rsp, Ready, To(p), top))
  }

  function SwappedIn(s: Sched, p: nat): Sched
    requires p in s.procs
  {
    s.(stacks := s.procs[p].stacks, cr3 := s.procs[p].pml4)
  }

  function SwappedBack(s: Sched, p: nat, list: Pointer, cr3: nat): Sched
    requires p in s.procs
  {
    s.(procs := s.procs[p := s.procs[p].(stacks := s.stacks)], stacks := list, cr3 := cr3)
  }

  /** Between its swaps create_user_thread works on the page tables and on the list of the process it is for. */
  lemma SwapInIsTheirs(s: Sched, own: map<nat, Pointer>, p: nat)
    requires ContextOK(s, own) && p in s.procs && SpawnSafe(s, p)
    ensures p in own && SwappedIn(s, p).cr3 == s.procs[p].pml4 && SwappedIn(s, p).stacks == own[p]
  {
  }

  /** create_user_thread is its four parts, with nothing in between. */
  lemma SpawnInParts(s: Sched, t: nat, p: nat, rsp: nat, top: nat, desc: nat)
    requires p in s.procs
    ensures var s1 := SwappedIn(s, p);
            var s2 := s1.(stacks := NewHead(s1.stacks, desc));
            UserSpawned(s, t, p, rsp, top, desc) == Enqueued(SwappedBack(s2, p, s.stacks, s.cr3), t, Thread(rsp, Ready, To(p), top))
  {
  }

  /** The list stored with process p is the one in place, or p is not running. */
  predicate SpawnSafe(s: Sched, p: nat)
    requires p in s.procs
  {
    ProcessHere(s) != To(p) || (s.procs[p].stacks.To? && s.procs[p].stacks == s.stacks)
  }

  /** The walk of cleanup_dead_threads hands one thread over to be destroyed, which frees its descriptor. */
  function HandedOver(s: Sched): Sched
    requires s.doomed != []
  {
    s.(doomed := s.doomed[1..], threads := s.threads - {s.doomed[0]})
  }

  /** The scheduler after a call of its handler with the current thread marked as k, and the stack pointer it answers. */
  ghost function After(s: Sched, k: State, rsp: nat): Sched
    requires WF(s)
  {
    match HandleAs(s, k, rsp)
    case Resume(r, _) => r
    case Hang => s
  }

  ghost function Answer(s: Sched, k: State, rsp: nat): nat
    requires WF(s)
  {
    match HandleAs(s, k, rsp)
    case Resume(_, r) => r
    case Hang => rsp
  }

  ghost function Step(m: Machine, op: Op, main: nat, idle: nat): Machine
    requires MachineInv(m, main, idle) && Legal(m, op, main, idle)
  {
    var s := m.s;
    match op
    case Tick(rsp) => m.(s := After(s, Running, rsp))
    case Exit => m.(s := After(s, Dead, 0))
    case Block(rsp) => m.(s := After(s, Blocked, rsp))
    case Wake(t) => m.(s := s.(threads := s.threads[t := s.threads[t].(state := Ready)]))
    case Spawn(t, rsp, top) => m.(s := Enqueued(s, t, Thread(rsp, Ready, Null, top)))
    case SpawnUser(t, p, rsp, top, desc) =>
      Machine(UserSpawned(s, t, p, rsp, top, desc), m.own[p := NewHead(s.procs[p].stacks, desc)])
    case SwapIn(p) => m.(s := SwappedIn(s, p))
    case AddStack(desc) => m.(s := s.(stacks := NewHead(s.stacks, desc)))
    case SwapBack(p, list, cr3) => m.(s := SwappedBack(s, p, list, cr3))
    case EnqueueUser(t, p, rsp, top) => m.(s := Enqueued(s, t, Thread(rsp, Ready, To(p), top)))
    case NewProcess(p, pml4) => Machine(s.(procs := s.procs[p := Process(pml4, Null)]), m.own[p := Null])
    case Stacks(list) => Machine(s.(stacks := list), m.own[ProcessHere(s).id := list])
    case Detach => m.(s := s.(dead := [], doomed := s.dead))
    case HandOver => m.(s := HandedOver(s))
  }

  /** A running thread is already marked as running, so a tick just calls the handler. */
  lemma TickMarks(s: Sched, rsp: nat)
    requires OneRunning(s) && WF(s)
    ensures Mark(s, Running) == s && HandleAs(s, Running, rsp) == Handle(s, rsp)
  {
    assert s.threads[s.current].(state := Running) == s.threads[s.current];
  }

  lemma CurrentKnown(m: Machine, main: nat, idle: nat)
    requires MachineInv(m, main, idle)
    ensures WF(m.s) && m.s.current in m.s.threads && KnownProcess(m.s, m.s.threads[m.s.current].process)
  {
  }

  // ---------- the invariant over runs ----------

  /** The scheduler once init_scheduler has created the idle thread. The main thread's descriptor comes from kmalloc and is
      not cleared: its `process` and `top` are whatever memory held. */
  function BootState(main: nat, process: Pointer, mainTop: nat, idle: nat, rsp: nat, top: nat, cr3: nat, rsp0: nat): Sched {
    var first := Thread(0, Running, process, mainTop);
    Enqueued(Sched([main], [], [], main, map[main := first], map[], Null, cr3, rsp0), idle, Thread(rsp, Ready, Null, top))
  }

  /** The scheduler starts out right exactly if memory held a null pointer where the main thread's process is. */
  lemma BootedIff(main: nat, process: Pointer, mainTop: nat, idle: nat, rsp: nat, top: nat, cr3: nat, rsp0: nat)
    requires main != idle
    ensures var m := Machine(BootState(main, process, mainTop, idle, rsp, top, cr3, rsp0), map[]);
            (MachineInv(m, main, idle) <==> process == Null) && (process == Null ==> ContextInv(m))
  {
    var r := [main] + [idle];
    assert r[0] == main && r[1] == idle;
    var s := BootState(main, process, mainTop, idle, rsp, top, cr3, rsp0);
    assert main in s.threads && s.threads[main].process == process;
  }

  /** One value that breaks it: the word 0x10 taken for the main thread's process. */
  lemma StrayProcess()
    ensures !MachineInv(Machine(BootState(0, To(0x10), 0, 1, 0, 0, 0, 0), map[]), 0, 1)
  {
    BootedIff(0, To(0x10), 0, 1, 0, 0, 0, 0);
  }

  lemma EnqueueKeepsInv(s: Sched, main: nat, idle: nat, t: nat, th: Thread)
    requires SchedInv(s, main, idle) && t !in s.threads && th.state == Ready && KnownProcess(s, th.process)
    ensures SchedInv(Enqueued(s, t, th), main, idle)
  {
    hide Distinct;
    AppendDistinct(s.ring, t);
  }

  lemma DetachKeepsInv(s: Sched, main: nat, idle: nat)
    requires SchedInv(s, main, idle) && s.doomed == []
    ensures SchedInv(s.(dead := [], doomed := s.dead), main, idle)
  {
    hide Distinct;
    assert Distinct(s.dead) && Distinct(s.doomed);
  }

  lemma HandOverKeepsInv(s: Sched, main: nat, idle: nat)
    requires SchedInv(s, main, idle) && s.doomed != []
    ensures SchedInv(HandedOver(s), main, idle)
  {
    TailDistinct(s.doomed);
    hide Distinct;
    assert s.doomed[0] in s.doomed;
  }

  /** A thread outside both lists may change its state to ready. */
  lemma WakeKeepsInv(s: Sched, main: nat, idle: nat, t: nat)
    requires SchedInv(s, main, idle) && t in s.threads && t !in s.ring && t !in s.dead && t !in s.doomed
    ensures SchedInv(s.(threads := s.threads[t := s.threads[t].(state := Ready)]), main, idle)
  {
    hide Distinct;
  }

  /** Ring, lists and states do not depend on the processes' lists, the list in place or the page tables. */
  lemma ProcessesKeepInv(s: Sched, main: nat, idle: nat, procs: map<nat, Process>, stacks: Pointer, cr3: nat)
    requires SchedInv(s, main, idle) && s.procs.Keys <= procs.Keys
    ensures SchedInv(s.(procs := procs, stacks := stacks, cr3 := cr3), main, idle)
  {
    hide Distinct;
    var s' := s.(procs := procs, stacks := stacks, cr3 := cr3);
    forall t | t in s'.threads
      ensures KnownProcess(s', s'.threads[t].process)
    {
      assert KnownProcess(s, s.threads[t].process);
    }
  }

  /** Every step keeps the invariant, whatever becomes of the context. */
  lemma StepKeepsInv(m: Machine, op: Op, main: nat, idle: nat)
    requires MachineInv(m, main, idle) && Legal(m, op, main, idle)
    ensures MachineInv(Step(m, op, main, idle), main, idle)
  {
    hide SchedInv, WF;
    var s, s' := m.s, Step(m, op, main, idle).s;
    CurrentKnown(m, main, idle);
    match op
    case Tick(rsp) => CallKeepsInv(s, Running, rsp, main, idle);
    case Exit => CallKeepsInv(s, Dead, 0, main, idle);
    case Block(rsp) => CallKeepsInv(s, Blocked, rsp, main, idle);
    case Wake(t) => WakeKeepsInv(s, main, idle, t);
    case Spawn(t, rsp, top) => EnqueueKeepsInv(s, main, idle, t, Thread(rsp, Ready, Null, top));
    case SpawnUser(t, p, rsp, top, desc) =>
      var s1 := s.(procs := s.procs[p := s.procs[p].(stacks := NewHead(s.procs[p].stacks, desc))]);
      ProcessesKeepInv(s, main, idle, s1.procs, s.stacks, s.cr3);
      EnqueueKeepsInv(s1, main, idle, t, Thread(rsp, Ready, To(p), top));
    case SwapIn(p) => ProcessesKeepInv(s, main, idle, s.procs, s'.stacks, s'.cr3);
    case AddStack(_) => ProcessesKeepInv(s, main, idle, s.procs, s'.stacks, s.cr3);
    case SwapBack(_, _, _) => ProcessesKeepInv(s, main, idle, s'.procs, s'.stacks, s'.cr3);
    case EnqueueUser(t, p, rsp, top) => EnqueueKeepsInv(s, main, idle, t, Thread(rsp, Ready, To(p), top));
    case NewProcess(_, _) => ProcessesKeepInv(s, main, idle, s'.procs, s.stacks, s.cr3);
    case Stacks(list) => ProcessesKeepInv(s, main, idle, s.procs, list, s.cr3);
    case Detach => DetachKeepsInv(s, main, idle);
    case HandOver => HandOverKeepsInv(s, main, idle);
  }

  lemma CallKeepsInv(s: Sched, k: State, rsp: nat, main: nat, idle: nat)
    requires SchedInv(s, main, idle) && WF(s) && (k == Dead || k == Blocked ==> s.current != main && s.current != idle)
    ensures HandleAs(s, k, rsp).Resume? && SchedInv(After(s, k, rsp), main, idle)
  {
    hide SchedInv, WF, Handle;
    HandleKeepsInv(s, k, rsp, main, idle);
  }

  // ---------- the context over runs ----------

  /** The step does not take the context apart: create_user_thread runs undivided, and for a process that is not running or
      whose list is stored as it is in place. */
  ghost predicate KeepsContext(m: Machine, op: Op)
    requires op.SpawnUser? ==> op.p in m.s.procs
  {
    match op
    case SpawnUser(_, p, _, _, _) => SpawnSafe(m.s, p)
    case SwapIn(_) => false
    case AddStack(_) => false
    case SwapBack(_, _, _) => false
    case EnqueueUser(_, _, _, _) => false
    case _ => true
  }

  lemma EnqueueKeepsContext(s: Sched, own: map<nat, Pointer>, t: nat, th: Thread)
    requires ContextOK(s, own) && t !in s.threads
    ensures ContextOK(Enqueued(s, t, th), own)
  {
  }

  /** create_user_thread keeps the context right if and only if the thread is for a process that is not running, or the
      list stored with that process is not empty and is the one in place. */
  lemma SpawnUserIff(s: Sched, own: map<nat, Pointer>, t: nat, p: nat, rsp: nat, top: nat, desc: nat)
    requires ContextOK(s, own) && p in s.procs && t !in s.threads && s.stacks != To(desc)
    ensures ContextOK(UserSpawned(s, t, p, rsp, top, desc), own[p := NewHead(s.procs[p].stacks, desc)]) <==> SpawnSafe(s, p)
  {
    assert s.current != t;
  }

  /** A user thread whose process has no stack yet creates another one: afterwards its own stack list is not the one in
      place. */
  lemma SpawnHereExample()
    ensures var user := Thread(0, Running, To(7), 0);
            var s := Sched([0, 1, 2], [], [], 2, map[0 := Thread(0, Ready, Null, 0), 1 := Thread(0, Ready, Null, 0), 2 := user],
                           map[7 := Process(0x1000, Null)], Null, 0x1000, 0);
            && SchedInv(s, 0, 1) && ContextOK(s, map[7 := Null])
            && !ContextOK(UserSpawned(s, 3, 7, 0, 0, 40), map[7 := To(40)])
  {
    var user := Thread(0, Running, To(7), 0);
    var r := [0, 1, 2];
    var s := Sched(r, [], [], 2, map[0 := Thread(0, Ready, Null, 0), 1 := Thread(0, Ready, Null, 0), 2 := user],
                   map[7 := Process(0x1000, Null)], Null, 0x1000, 0);
    assert r[0] == 0 && r[1] == 1 && r[2] == 2;
    SpawnUserIff(s, map[7 := Null], 3, 7, 0, 0, 40);
    assert map[7 := Null][7 := To(40)] == map[7 := To(40)];
  }

  /** Two kernel threads, and a process with a stack. */
  function TwoKernelThreads(): Sched {
    Sched([0, 1], [], [], 0, map[0 := Thread(0, Running, Null, 0), 1 := Thread(0, Ready, Null, 0)],
          map[7 := Process(0x1000, To(40))], Null, 0x2000, 0)
  }

  /** A kernel thread is preempted in the middle of create_user_thread: the next kernel thread finds the list of process 7 in
      place instead of an empty one. */
  lemma PreemptedSpawnExample()
    ensures var s := TwoKernelThreads();
            && SchedInv(s, 0, 1) && ContextOK(s, map[7 := To(40)])
            && WF(SwappedIn(s, 7)) && !ContextOK(After(SwappedIn(s, 7), Running, 0), map[7 := To(40)])
  {
    hide SchedInv, WF, OneRunning, Handle, After;
    TwoReady();
    var s1 := SwappedIn(TwoKernelThreads(), 7);
    KernelSwitch(s1);
  }

  lemma TwoReady()
    ensures var s := TwoKernelThreads();
            && SchedInv(s, 0, 1) && ContextOK(s, map[7 := To(40)])
            && WF(SwappedIn(s, 7)) && OneRunning(SwappedIn(s, 7))
  {
    var s := TwoKernelThreads();
    assert s.ring[0] == 0 && s.ring[1] == 1;
    ProcessesKeepInv(s, 0, 1, s.procs, SwappedIn(s, 7).stacks, SwappedIn(s, 7).cr3);
  }

  /** Between two kernel threads the list in place stays. */
  lemma KernelSwitch(s: Sched)
    requires WF(s) && OneRunning(s) && |s.ring| >= 2 && forall t :: t in s.ring ==> t in s.threads && s.threads[t].process == Null
    ensures After(s, Running, 0).stacks == s.stacks && After(s, Running, 0).current in After(s, Running, 0).threads
    ensures var r := After(s, Running, 0); r.threads[r.current].process == Null
  {
    hide Handle, Distinct, Successor, OneRunning;
    HandleThreads(s, Running, 0);
    HandleIs(s, Running, 0);
    LeaveContext(s, Running, 0);
  }

  lemma StepKeepsContext(m: Machine, op: Op, main: nat, idle: nat)
    requires MachineInv(m, main, idle) && ContextInv(m) && Legal(m, op, main, idle) && KeepsContext(m, op)
    ensures ContextInv(Step(m, op, main, idle))
  {
    hide Handle, Distinct;
    var s := m.s;
    AtLeastTwo(s, main, idle);
    match op
    case Tick(rsp) => CallKeepsContext(s, Running, rsp, m.own);
    case Exit => CallKeepsContext(s, Dead, 0, m.own);
    case Block(rsp) => CallKeepsContext(s, Blocked, rsp, m.own);
    case Wake(_) =>
    case Spawn(t, rsp, top) => EnqueueKeepsContext(s, m.own, t, Thread(rsp, Ready, Null, top));
    case SpawnUser(t, p, rsp, top, desc) => SpawnUserIff(s, m.own, t, p, rsp, top, desc);
    case NewProcess(_, _) =>
    case Stacks(_) =>
    case Detach =>
    case HandOver => assert s.doomed[0] in s.doomed;
  }

  lemma CallKeepsContext(s: Sched, k: State, rsp: nat, own: map<nat, Pointer>)
    requires WF(s) && OneRunning(s) && |s.ring| >= 2 && ContextOK(s, own)
    ensures ContextOK(After(s, k, rsp), own)
  {
    hide Handle, Distinct, ContextOK, OneRunning;
    HandleThreads(s, k, rsp);
    HandleKeepsContext(s, k, rsp, own);
  }

  // ---------- the life of a thread, told by the events alone ----------

  datatype Life = Absent | Waiting(rsp: nat) | OnProcessor | Aside(rsp: nat, awake: bool) | Ended | Broken

  /** A thread is created once, gets the processor only while it waits and only with the stack pointer it last had, never
      beside another thread, never again after it ended, and is handed over for destruction once, after it ended. */
  function Advance(l: Life, t: nat, e: Event): Life {
    match e
    case Created(u, r) => if u != t then l else if l == Absent then Waiting(r) else Broken
    case Preempted(u, r) => if u != t then l else if l == OnProcessor then Waiting(r) else Broken
    case Parked(u, r) => if u != t then l else if l == OnProcessor then Aside(r, false) else Broken
    case Woken(u) => if u != t then l else if l.Aside? then l.(awake := true) else Broken
    case Exited(u) => if u != t then l else if l == OnProcessor then Ended else Broken
    case Entered(u, r) =>
      if u == t then (if l == Waiting(r) then OnProcessor else Broken)
      else if l == OnProcessor then Broken else l
    case Collected(u) => if u != t then l else if l == Ended then Absent else Broken
  }

  function Follow(l: Life, t: nat, trace: seq<Event>): Life
    decreases |trace|
  {
    if trace == [] then l else Follow(Advance(l, t, trace[0]), t, trace[1..])
  }

  lemma {:induction false} FollowTwo(l: Life, t: nat, a: seq<Event>, b: seq<Event>)
    ensures Follow(l, t, a + b) == Follow(Follow(l, t, a), t, b)
    decreases |a|
  {
    if a == [] {
      assert a + b == b;
    } else {
      assert (a + b)[1..] == a[1..] + b;
      FollowTwo(Advance(l, t, a[0]), t, a[1..], b);
    }
  }

  /** What the scheduler's own data say about a thread. */
  ghost function LifeIn(s: Sched, t: nat): Life {
    if t !in s.threads then Absent
    else if t == s.current then OnProcessor
    else if t in s.ring then Waiting(s.threads[t].rsp)
    else if t in s.dead || t in s.doomed then Ended
    else Aside(s.threads[t].rsp, s.threads[t].state == Ready)
  }

  /** What a step shows. */
  ghost function Events(m: Machine, op: Op, main: nat, idle: nat): seq<Event>
    requires MachineInv(m, main, idle) && Legal(m, op, main, idle)
  {
    var s := m.s;
    match op
    case Tick(rsp) => [Preempted(s.current, rsp), Entered(After(s, Running, rsp).current, Answer(s, Running, rsp))]
    case Exit => [Exited(s.current), Entered(After(s, Dead, 0).current, Answer(s, Dead, 0))]
    case Block(rsp) => [Parked(s.current, rsp), Entered(After(s, Blocked, rsp).current, Answer(s, Blocked, rsp))]
    case Wake(t) => [Woken(t)]
    case Spawn(t, rsp, _) => [Created(t, rsp)]
    case SpawnUser(t, _, rsp, _, _) => [Created(t, rsp)]
    case SwapIn(_) => []
    case AddStack(_) => []
    case SwapBack(_, _, _) => []
    case EnqueueUser(t, _, rsp, _) => [Created(t, rsp)]
    case NewProcess(_, _) => []
    case Stacks(_) => []
    case Detach => []
    case HandOver => [Collected(s.doomed[0])]
  }

  /** The two events of a call of the handler. */
  lemma SwitchLife(s: Sched, k: State, rsp: nat, t: nat)
    requires WF(s) && OneRunning(s) && DeadApart(s) && |s.ring| >= 2
    requires k == Running || k == Dead || k == Blocked
    ensures var h := Handle(Mark(s, k), rsp);
            && h.Resume?
            && var leave := if k == Dead then Exited(s.current) else if k == Blocked then Parked(s.current, rsp) else Preempted(s.current, rsp);
               Follow(LifeIn(s, t), t, [leave, Entered(h.s.current, h.rsp)]) == LifeIn(h.s, t)
  {
    hide Handle, Successor, Distinct, Without;
    HandleThreads(s, k, rsp);
    WithoutElements(s.ring, s.current);
    var h := Handle(Mark(s, k), rsp);
    var leave := if k == Dead then Exited(s.current) else if k == Blocked then Parked(s.current, rsp) else Preempted(s.current, rsp);
    FollowPair(LifeIn(s, t), t, leave, Entered(h.s.current, h.rsp));
    hide Follow;
    if t in s.threads { assert h.s.threads[t] == Moved(s, k, rsp, h.s.current, t); }
  }

  lemma FollowPair(l: Life, t: nat, a: Event, b: Event)
    ensures Follow(l, t, [a, b]) == Advance(Advance(l, t, a), t, b)
  {
    assert [a, b][1..] == [b];
    FollowOne(Advance(l, t, a), t, b);
  }

  lemma FollowOne(l: Life, t: nat, a: Event)
    ensures Follow(l, t, [a]) == Advance(l, t, a)
  {
    assert [a][1..] == [];
  }

  /** What the scheduler's data say about a thread is what the events tell. */
  lemma StepLife(m: Machine, op: Op, main: nat, idle: nat, t: nat)
    requires MachineInv(m, main, idle) && Legal(m, op, main, idle)
    ensures Follow(LifeIn(m.s, t), t, Events(m, op, main, idle)) == LifeIn(Step(m, op, main, idle).s, t)
  {
    hide Handle, Mark, Distinct, Follow, LifeIn, After, Answer, WF;
    var s, s' := m.s, Step(m, op, main, idle).s;
    AtLeastTwo(s, main, idle);
    CurrentKnown(m, main, idle);
    match op
    case Tick(rsp) => CallLife(s, Running, rsp, t);
    case Exit => CallLife(s, Dead, 0, t);
    case Block(rsp) => CallLife(s, Blocked, rsp, t);
    case Wake(u) => FollowOne(LifeIn(s, t), t, Woken(u)); WakeLife(s, u, t);
    case Spawn(u, rsp, top) => CreatedLife(s, s', u, Thread(rsp, Ready, Null, top), t);
    case SpawnUser(u, p, rsp, top, _) => CreatedLife(s, s', u, Thread(rsp, Ready, To(p), top), t);
    case SwapIn(_) => OtherLife(s, s', t);
    case AddStack(_) => OtherLife(s, s', t);
    case SwapBack(_, _, _) => OtherLife(s, s', t);
    case EnqueueUser(u, p, rsp, top) => CreatedLife(s, s', u, Thread(rsp, Ready, To(p), top), t);
    case NewProcess(_, _) => OtherLife(s, s', t);
    case Stacks(_) => OtherLife(s, s', t);
    case Detach => OtherLife(s, s', t);
    case HandOver => HandOverLife(s, t);
  }

  lemma CallLife(s: Sched, k: State, rsp: nat, t: nat)
    requires WF(s) && OneRunning(s) && DeadApart(s) && |s.ring| >= 2 && (k == Running || k == Dead || k == Blocked)
    ensures var leave := if k == Dead then Exited(s.current) else if k == Blocked then Parked(s.current, rsp) else Preempted(s.current, rsp);
            Follow(LifeIn(s, t), t, [leave, Entered(After(s, k, rsp).current, Answer(s, k, rsp))]) == LifeIn(After(s, k, rsp), t)
  {
    hide Handle, Mark, Follow, LifeIn, WF, OneRunning, DeadApart;
    SwitchLife(s, k, rsp, t);
  }

  lemma WakeLife(s: Sched, u: nat, t: nat)
    requires WF(s) && u in s.threads && u !in s.ring && u !in s.dead && u !in s.doomed
    ensures Advance(LifeIn(s, t), t, Woken(u)) == LifeIn(s.(threads := s.threads[u := s.threads[u].(state := Ready)]), t)
  {
    assert s.current in s.ring;
  }

  /** Nothing about the thread changes. */
  lemma OtherLife(s: Sched, s': Sched, t: nat)
    requires s'.current == s.current && s'.ring == s.ring && s'.dead + s'.doomed == s.dead + s.doomed
    requires s'.threads == s.threads
    ensures Follow(LifeIn(s, t), t, []) == LifeIn(s', t)
  {
    FollowNone(LifeIn(s, t), t);
    assert t in s.dead + s.doomed <==> t in s'.dead + s'.doomed;
  }

  lemma CreatedLife(s: Sched, s': Sched, u: nat, th: Thread, t: nat)
    requires u !in s.threads && s.current in s.threads && s'.threads == s.threads[u := th] && s'.ring == s.ring + [u]
    requires s'.current == s.current && s'.dead == s.dead && s'.doomed == s.doomed
    ensures Follow(LifeIn(s, t), t, [Created(u, th.rsp)]) == LifeIn(s', t)
  {
    FollowOne(LifeIn(s, t), t, Created(u, th.rsp));
  }

  lemma HandOverLife(s: Sched, t: nat)
    requires WF(s) && DeadApart(s) && s.doomed != []
    ensures Follow(LifeIn(s, t), t, [Collected(s.doomed[0])]) == LifeIn(HandedOver(s), t)
  {
    hide Distinct;
    TailDistinct(s.doomed);
    assert s.doomed[0] in s.doomed;
    FollowOne(LifeIn(s, t), t, Collected(s.doomed[0]));
  }

  lemma FollowNone(l: Life, t: nat)
    ensures Follow(l, t, []) == l
  {
  }

  ghost predicate Reaches(m: Machine, ops: seq<Op>, main: nat, idle: nat, m': Machine, trace: seq<Event>)
    requires MachineInv(m, main, idle)
    decreases |ops|
  {
    if ops == [] then m' == m && trace == []
    else
      && Legal(m, ops[0], main, idle)
      && (StepKeepsInv(m, ops[0], main, idle);
          var e := Events(m, ops[0], main, idle);
          |e| <= |trace| && trace[..|e|] == e && Reaches(Step(m, ops[0], main, idle), ops[1..], main, idle, m', trace[|e|..]))
  }

  /** Over every run: the invariant stands, and every thread's life follows the events without a breach. So exactly one
      thread is on the processor, a resumed thread gets the stack pointer it last had, dead threads never run again, and
      each is handed over for destruction at most once. */
  lemma {:induction false} RunLives(m: Machine, ops: seq<Op>, main: nat, idle: nat, m': Machine, trace: seq<Event>, t: nat)
    requires MachineInv(m, main, idle) && Reaches(m, ops, main, idle, m', trace)
    ensures MachineInv(m', main, idle)
    ensures Follow(LifeIn(m.s, t), t, trace) == LifeIn(m'.s, t) != Broken
    decreases |ops|
  {
    hide MachineInv, Legal, Step, Events, Advance;
    if ops != [] {
      StepKeepsInv(m, ops[0], main, idle);
      StepLife(m, ops[0], main, idle, t);
      var e := Events(m, ops[0], main, idle);
      RunLives(Step(m, ops[0], main, idle), ops[1..], main, idle, m', trace[|e|..], t);
      FollowTwo(LifeIn(m.s, t), t, e, trace[|e|..]);
      assert trace == e + trace[|e|..];
    }
  }

  /** No step of the run takes the context apart. */
  ghost predicate Undisturbed(m: Machine, ops: seq<Op>, main: nat, idle: nat)
    requires MachineInv(m, main, idle)
    decreases |ops|
  {
    ops == []
    || (Legal(m, ops[0], main, idle) && KeepsContext(m, ops[0])
        && (StepKeepsInv(m, ops[0], main, idle); Undisturbed(Step(m, ops[0], main, idle), ops[1..], main, idle)))
  }

  lemma {:induction false} RunKeepsContext(m: Machine, ops: seq<Op>, main: nat, idle: nat, m': Machine, trace: seq<Event>)
    requires MachineInv(m, main, idle) && ContextInv(m) && Reaches(m, ops, main, idle, m', trace) && Undisturbed(m, ops, main, idle)
    ensures ContextInv(m')
    decreases |ops|
  {
    hide MachineInv, ContextInv, Legal, Step, Events, KeepsContext;
    if ops != [] {
      StepKeepsInv(m, ops[0], main, idle);
      StepKeepsContext(m, ops[0], main, idle);
      RunKeepsContext(Step(m, ops[0], main, idle), ops[1..], main, idle, m', trace[|Events(m, ops[0], main, idle)|..]);
    }
  }
}
