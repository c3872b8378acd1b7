/** How long a ready thread waits, and where the scheduler falls short of its intent. */
module SchedulerFairness {
  import opened Basics
  import opened Sequences
  import opened Scheduling
  import opened SchedulerRuns

  /** How many places after position i position j comes on a ring of n. */
  function Ahead(i: nat, j: nat, n: nat): nat
    requires i < n && j < n
  {
    if i <= j then j - i else j + n - i
  }

  /** Ring distance from the current thread to t. */
  function Distance(s: Sched, t: nat): nat
    requires s.current in s.ring && t in s.ring
  {
    Ahead(IndexOf(s.ring, s.current), IndexOf(s.ring, t), |s.ring|)
  }

  lemma IndexOfIs(ring: seq<nat>, i: nat)
    requires Distinct(ring) && i < |ring|
    ensures IndexOf(ring, ring[i]) == i
  {
    DistinctAt(ring, IndexOf(ring, ring[i]), i);
  }

  /** Every call of the handler gives t the processor, or shrinks the ring, or brings t nearer. */
  lemma CallsProgress(s: Sched, k: State, rsp: nat, t: nat)
    requires WF(s) && OneRunning(s) && |s.ring| >= 2 && t in s.ring && t != s.current
    ensures var h := Handle(Mark(s, k), rsp).s;
            && h.current in h.ring
            && (t == h.current || (t in h.ring && (|h.ring| < |s.ring| || (|h.ring| == |s.ring| && Distance(h, t) < Distance(s, t)))))
  {
    hide Handle, Distinct, Without, Mark, OneRunning, IndexOf, Ahead;
    HandleThreads(s, k, rsp);
    HandleKeepsRing(s, k, rsp);
    WithoutElements(s.ring, s.current);
    if k != Dead && k != Blocked {
      NextIsNearer(s.ring, IndexOf(s.ring, s.current), t);
    }
  }

  lemma NextIsNearer(ring: seq<nat>, i: nat, t: nat)
    requires Distinct(ring) && i < |ring| && t in ring && t != ring[i]
    ensures var u := ring[Around(i + 1, |ring|)];
            t == u || Ahead(IndexOf(ring, u), IndexOf(ring, t), |ring|) < Ahead(i, IndexOf(ring, t), |ring|)
  {
    hide Distinct, IndexOf;
    IndexOfIs(ring, Around(i + 1, |ring|));
  }

  predicate IsCall(op: Op) { op.Tick? || op.Exit? || op.Block? }

  /** t gets the processor, with stack pointer r. */
  ghost predicate Gets(trace: seq<Event>, t: nat, r: nat) {
    Entered(t, r) in trace
  }

  function Weight(s: Sched, t: nat): nat
    requires s.current in s.ring && t in s.ring
  {
    |s.ring| * |s.ring| + Distance(s, t)
  }

  lemma WeightFalls(n: nat, d: nat, n': nat, d': nat)
    requires d < n && d' < n' && (n' < n || (n' == n && d' < d))
    ensures n' * n' + d' < n * n + d
  {
    if n' < n {
      assert n' * n' + n' <= (n' + 1) * n' <= n * n' <= n * n;
    }
  }

  function KindOf(op: Op): State { if op.Exit? then Dead else if op.Block? then Blocked else Running }

  function RspOf(op: Op): nat { if op.Tick? || op.Block? then op.rsp else 0 }

  /** A call of the handler and the two events it shows. */
  lemma StepIsCall(m: Machine, op: Op, main: nat, idle: nat)
    requires MachineInv(m, main, idle) && Legal(m, op, main, idle) && IsCall(op)
    ensures WF(m.s) && OneRunning(m.s) && |m.s.ring| >= 2
    ensures var h := Handle(Mark(m.s, KindOf(op)), RspOf(op));
            && h.Resume? && Step(m, op, main, idle).s == h.s
            && |Events(m, op, main, idle)| == 2 && Events(m, op, main, idle)[1] == Entered(h.s.current, h.rsp)
  {
    hide Handle, Distinct, ContextOK, Mark;
    AtLeastTwo(m.s, main, idle);
    HandleThreads(m.s, KindOf(op), RspOf(op));
  }

  lemma CallWeight(m: Machine, op: Op, main: nat, idle: nat, t: nat)
    requires MachineInv(m, main, idle) && Legal(m, op, main, idle) && IsCall(op) && t in m.s.ring && t != m.s.current
    ensures t in m.s.threads && m.s.current in m.s.ring
    ensures var s' := Step(m, op, main, idle).s;
            && (s'.current == t ==> Gets(Events(m, op, main, idle), t, m.s.threads[t].rsp))
            && (s'.current != t ==> Waits(m.s, s', t))
  {
    hide Handle, Step, Events, Legal, OneRunning, ContextOK, Waits, Distinct;
    StepIsCall(m, op, main, idle);
    CallWeightAs(m.s, KindOf(op), RspOf(op), t);
    assert Events(m, op, main, idle)[1] in Events(m, op, main, idle);
  }

  /** Still waiting after a call, but not for as long. */
  ghost predicate Waits(s: Sched, s': Sched, t: nat)
    requires s.current in s.ring && t in s.ring && t in s.threads
  {
    s'.current in s'.ring && t in s'.ring && Weight(s', t) < Weight(s, t) && t in s'.threads && s'.threads[t] == s.threads[t]
  }

  lemma CallWeightAs(s: Sched, k: State, rsp: nat, t: nat)
    requires WF(s) && OneRunning(s) && |s.ring| >= 2 && t in s.ring && t != s.current
    ensures var h := Handle(Mark(s, k), rsp);
            && h.Resume? && t in s.threads && s.current in s.ring
            && (h.s.current == t ==> h.rsp == s.threads[t].rsp)
            && (h.s.current != t ==> Waits(s, h.s, t))
  {
    hide Handle, Distinct, Without;
    HandleThreads(s, k, rsp);
    CallsProgress(s, k, rsp, t);
    var h := Handle(Mark(s, k), rsp).s;
    if h.current != t {
      WeightFalls(|s.ring|, Distance(s, t), |h.ring|, Distance(h, t));
      assert h.threads[t] == Moved(s, k, rsp, h.current, t);
    }
  }

  /** Bounded waiting: without arrivals, whatever exits and blocks, a ready thread in a ring of n gets the processor
      within n * n + n calls of the handler, with the stack pointer it last had. */
  lemma {:induction false} WaitBound(m: Machine, ops: seq<Op>, main: nat, idle: nat, m': Machine, trace: seq<Event>, t: nat)
    requires MachineInv(m, main, idle) && Reaches(m, ops, main, idle, m', trace)
    requires forall k :: 0 <= k < |ops| ==> IsCall(ops[k])
    requires t in m.s.ring && t != m.s.current && t in m.s.threads && m.s.current in m.s.ring && |ops| >= Weight(m.s, t)
    ensures Gets(trace, t, m.s.threads[t].rsp)
    decreases |ops|
  {
    hide MachineInv, Legal, Step, Events, Weight, IsCall;
    WeightPositive(m.s, t);
    CallWeight(m, ops[0], main, idle, t);
    StepKeepsInv(m, ops[0], main, idle);
    var e := Events(m, ops[0], main, idle);
    var m1 := Step(m, ops[0], main, idle);
    assert trace == e + trace[|e|..];
    if m1.s.current != t {
      WaitBound(m1, ops[1..], main, idle, m', trace[|e|..], t);
    }
  }

  lemma WeightPositive(s: Sched, t: nat)
    requires s.current in s.ring && t in s.ring
    ensures 0 < Weight(s, t) <= |s.ring| * |s.ring| + |s.ring|
  {
    assert |s.ring| * |s.ring| >= 1;
  }

  // ---------- ticks alone: round robin ----------

  ghost function AfterTicks(m: Machine, rsps: seq<nat>, main: nat, idle: nat): (r: Machine)
    requires MachineInv(m, main, idle)
    ensures MachineInv(r, main, idle)
  {
    if rsps == [] then m
    else
      var m1 := AfterTicks(m, rsps[..|rsps| - 1], main, idle);
      StepKeepsInv(m1, Tick(rsps[|rsps| - 1]), main, idle);
      Step(m1, Tick(rsps[|rsps| - 1]), main, idle)
  }

  /** j ticks later the thread j places further on the ring is running. */
  lemma {:induction false} TicksRotate(m: Machine, rsps: seq<nat>, main: nat, idle: nat)
    requires MachineInv(m, main, idle) && |rsps| <= |m.s.ring|
    ensures m.s.current in m.s.ring
    ensures var m' := AfterTicks(m, rsps, main, idle);
            m'.s.ring == m.s.ring && m'.s.current == m.s.ring[Around(IndexOf(m.s.ring, m.s.current) + |rsps|, |m.s.ring|)]
    decreases |rsps|
  {
    hide MachineInv, Step, Around, Legal;
    RingDistinct(m, main, idle);
    if rsps == [] {
      CurrentHere(m.s);
    } else {
      TicksRotate(m, rsps[..|rsps| - 1], main, idle);
      TickAdvances(AfterTicks(m, rsps[..|rsps| - 1], main, idle), rsps[|rsps| - 1], main, idle, IndexOf(m.s.ring, m.s.current) + |rsps| - 1);
    }
  }

  lemma CurrentHere(s: Sched)
    requires s.current in s.ring
    ensures s.current == s.ring[Around(IndexOf(s.ring, s.current), |s.ring|)]
  {
  }

  lemma TickAdvances(m: Machine, rsp: nat, main: nat, idle: nat, i: nat)
    requires MachineInv(m, main, idle) && i + 1 < 2 * |m.s.ring| && m.s.current == m.s.ring[Around(i, |m.s.ring|)]
    ensures Legal(m, Tick(rsp), main, idle)
    ensures var s' := Step(m, Tick(rsp), main, idle).s;
            s'.ring == m.s.ring && s'.current == m.s.ring[Around(i + 1, |m.s.ring|)]
  {
    hide Handle, Distinct, ContextOK, Mark, OneRunning, Events;
    StepIsCall(m, Tick(rsp), main, idle);
    IndexOfIs(m.s.ring, Around(i, |m.s.ring|));
    HandleThreads(m.s, Running, rsp);
  }

  /** In n ticks each thread of a ring of n gets the processor exactly once. */
  lemma EachRunsOnce(m: Machine, rsps: seq<nat>, main: nat, idle: nat, t: nat)
    requires MachineInv(m, main, idle) && |rsps| == |m.s.ring| && t in m.s.ring
    ensures exists j: nat :: 1 <= j <= |rsps| && RunsAt(m, rsps, main, idle, j, t) && forall i: nat :: 1 <= i <= |rsps| && i != j ==> !RunsAt(m, rsps, main, idle, i, t)
  {
    hide MachineInv, AfterTicks, Distinct;
    var n := |m.s.ring|;
    TicksRotate(m, [], main, idle);
    RingDistinct(m, main, idle);
    var j := Ahead(IndexOf(m.s.ring, m.s.current), IndexOf(m.s.ring, t), n);
    var turn := if j == 0 then n else j;
    forall i: nat | 1 <= i <= n
      ensures RunsAt(m, rsps, main, idle, i, t) <==> i == turn
    {
      TicksRotate(m, rsps[..i], main, idle);
      IndexOfIs(m.s.ring, Around(IndexOf(m.s.ring, m.s.current) + i, n));
    }
    assert RunsAt(m, rsps, main, idle, turn, t);
  }

  ghost predicate RunsAt(m: Machine, rsps: seq<nat>, main: nat, idle: nat, j: nat, t: nat)
    requires MachineInv(m, main, idle) && j <= |rsps|
  {
    AfterTicks(m, rsps[..j], main, idle).s.current == t
  }

  lemma RingDistinct(m: Machine, main: nat, idle: nat)
    requires MachineInv(m, main, idle)
    ensures Distinct(m.s.ring) && m.s.current in m.s.ring
  {
  }

  // ---------- contexts ----------

  /** After every run that does not take the context apart the processor's address space and list of user stacks belong to the
      running thread. */
  lemma ContextAlwaysRight(m: Machine, ops: seq<Op>, main: nat, idle: nat, m': Machine, trace: seq<Event>)
    requires MachineInv(m, main, idle) && ContextInv(m) && Reaches(m, ops, main, idle, m', trace) && Undisturbed(m, ops, main, idle)
    ensures match ProcessHere(m'.s)
            case Null => m'.s.stacks == Null
            case To(p) => p in m'.s.procs && p in m'.own && m'.s.cr3 == m'.s.procs[p].pml4 && m'.s.stacks == m'.own[p]
  {
    RunKeepsContext(m, ops, main, idle, m', trace);
  }

  /** No step changes the page tables of a process, nor the process and the kernel stack of a thread until it is handed over. */
  lemma StepKeepsOwners(m: Machine, op: Op, main: nat, idle: nat)
    requires MachineInv(m, main, idle) && Legal(m, op, main, idle)
    ensures SameOwners(m.s, Step(m, op, main, idle).s, Events(m, op, main, idle))
  {
    hide Handle, Distinct, OneRunning, Successor, Without;
    AtLeastTwo(m.s, main, idle);
    if IsCall(op) {
      StepIsCall(m, op, main, idle);
      HandleThreads(m.s, KindOf(op), RspOf(op));
      HandleContext(m.s, KindOf(op), RspOf(op));
      CallKeepsOwners(m.s, KindOf(op), RspOf(op), Events(m, op, main, idle));
    }
  }

  lemma CallKeepsOwners(s: Sched, k: State, rsp: nat, trace: seq<Event>)
    requires WF(s) && OneRunning(s) && |s.ring| >= 2
    ensures SameOwners(s, Handle(Mark(s, k), rsp).s, trace)
  {
    hide Handle, Distinct, OneRunning, Successor, Without;
    HandleThreads(s, k, rsp);
    HandleContext(s, k, rsp);
    var s' := Handle(Mark(s, k), rsp).s;
    forall t | t in s.threads
      ensures t in s'.threads && s'.threads[t].process == s.threads[t].process && s'.threads[t].top == s.threads[t].top
    {
      assert s'.threads[t] == Moved(s, k, rsp, s'.current, t);
    }
  }

  ghost predicate SameOwners(s: Sched, s': Sched, trace: seq<Event>) {
    && (forall p :: p in s.procs ==> p in s'.procs && s'.procs[p].pml4 == s.procs[p].pml4)
    && forall t :: t in s.threads && Collected(t) !in trace ==>
         t in s'.threads && s'.threads[t].process == s.threads[t].process && s'.threads[t].top == s.threads[t].top
  }

  /** Over every run, whatever becomes of the context: each process keeps its page tables, and each thread its process and its
      kernel stack until it is handed over for destruction. */
  lemma {:induction false} RunKeepsOwners(m: Machine, ops: seq<Op>, main: nat, idle: nat, m': Machine, trace: seq<Event>)
    requires MachineInv(m, main, idle) && Reaches(m, ops, main, idle, m', trace)
    ensures SameOwners(m.s, m'.s, trace)
    decreases |ops|
  {
    hide MachineInv, Legal, Step, Events;
    if ops != [] {
      StepKeepsInv(m, ops[0], main, idle);
      StepKeepsOwners(m, ops[0], main, idle);
      var e := Events(m, ops[0], main, idle);
      RunKeepsOwners(Step(m, ops[0], main, idle), ops[1..], main, idle, m', trace[|e|..]);
      assert trace == e + trace[|e|..];
    }
  }

  /** The kernel stack the processor would switch to is that of the running thread. */
  predicate StackHere(s: Sched) { s.current in s.threads && s.rsp0 == s.threads[s.current].top }

  lemma StepKeepsStack(m: Machine, op: Op, main: nat, idle: nat)
    requires MachineInv(m, main, idle) && Legal(m, op, main, idle) && (IsCall(op) || StackHere(m.s))
    ensures StackHere(Step(m, op, main, idle).s)
  {
    hide Handle, Distinct, OneRunning, Successor, Without;
    if IsCall(op) {
      StepIsCall(m, op, main, idle);
      HandleThreads(m.s, KindOf(op), RspOf(op));
    } else {
      CurrentKnown(m, main, idle);
    }
  }

  /** From the first call of the handler on, that holds over every run. */
  lemma {:induction false} KernelStackAlwaysRight(m: Machine, ops: seq<Op>, main: nat, idle: nat, m': Machine, trace: seq<Event>)
    requires MachineInv(m, main, idle) && Reaches(m, ops, main, idle, m', trace)
    requires StackHere(m.s) || exists k :: 0 <= k < |ops| && IsCall(ops[k])
    ensures StackHere(m'.s)
    decreases |ops|
  {
    hide MachineInv, Legal, Step, Events, IsCall, StackHere;
    if ops != [] {
      StepKeepsInv(m, ops[0], main, idle);
      if StackHere(m.s) || IsCall(ops[0]) { StepKeepsStack(m, ops[0], main, idle); }
      KernelStackAlwaysRight(Step(m, ops[0], main, idle), ops[1..], main, idle, m', trace[|Events(m, ops[0], main, idle)|..]);
    }
  }

  /** The page tables of the running user thread's process, or `root` when a kernel thread runs. */
  function RootHere(s: Sched, root: nat): nat {
    match ProcessHere(s)
    case Null => root
    case To(p) => if p in s.procs then s.procs[p].pml4 else root
  }

  lemma StepLoadsRoot(m: Machine, op: Op, main: nat, idle: nat)
    requires MachineInv(m, main, idle) && ContextInv(m) && Legal(m, op, main, idle) && KeepsContext(m, op)
    ensures Step(m, op, main, idle).s.cr3 == RootHere(Step(m, op, main, idle).s, m.s.cr3)
  {
    hide Handle, Distinct, OneRunning, Successor, Without;
    StepKeepsContext(m, op, main, idle);
    CurrentKnown(m, main, idle);
    if IsCall(op) {
      StepIsCall(m, op, main, idle);
      CallLoadsRoot(m.s, KindOf(op), RspOf(op));
    }
  }

  /** When a kernel thread follows, the page tables in use stay. */
  lemma CallLoadsRoot(s: Sched, k: State, rsp: nat)
    requires WF(s) && OneRunning(s) && |s.ring| >= 2
    ensures var s' := Handle(Mark(s, k), rsp).s; ProcessHere(s') == Null ==> s'.cr3 == s.cr3
  {
    hide Handle, Distinct, OneRunning, Successor, Without;
    HandleThreads(s, k, rsp);
    HandleContext(s, k, rsp);
    var s' := Handle(Mark(s, k), rsp).s;
    assert s'.threads[s'.current] == Moved(s, k, rsp, s'.current, s'.current);
  }

  /** The page tables of the user process that ran last in a run, or `root` if none did. */
  ghost function LastRoot(m: Machine, ops: seq<Op>, main: nat, idle: nat, root: nat): nat
    requires MachineInv(m, main, idle) && Undisturbed(m, ops, main, idle)
    decreases |ops|
  {
    if ops == [] then root
    else
      StepKeepsInv(m, ops[0], main, idle);
      var m1 := Step(m, ops[0], main, idle);
      LastRoot(m1, ops[1..], main, idle, RootHere(m1.s, root))
  }

  /** Over every run that does not take the context apart, the page tables in use are those of the user process that ran last, or
      those the run began with while none has. */
  lemma {:induction false} RootOfLastProcess(m: Machine, ops: seq<Op>, main: nat, idle: nat, m': Machine, trace: seq<Event>)
    requires MachineInv(m, main, idle) && ContextInv(m) && Reaches(m, ops, main, idle, m', trace) && Undisturbed(m, ops, main, idle)
    ensures m'.s.cr3 == LastRoot(m, ops, main, idle, m.s.cr3)
    decreases |ops|
  {
    hide MachineInv, ContextInv, Legal, Step, Events, KeepsContext, RootHere;
    if ops != [] {
      StepKeepsInv(m, ops[0], main, idle);
      StepKeepsContext(m, ops[0], main, idle);
      StepLoadsRoot(m, ops[0], main, idle);
      RootOfLastProcess(Step(m, ops[0], main, idle), ops[1..], main, idle, m', trace[|Events(m, ops[0], main, idle)|..]);
    }
  }

  // ---------- where the handler cannot switch ----------

  /** The interrupted thread goes on although it is not running, exactly when it is alone on the ring; with others
      there, every call ends with a running current thread. */
  lemma StopsRunningIff(s: Sched, k: State, rsp: nat)
    requires WF(s) && OneRunning(s) && (k == Running || k == Dead || k == Blocked)
    ensures var h := Handle(Mark(s, k), rsp);
            && h.Resume? && h.s.current in h.s.threads
            && (h.s.threads[h.s.current].state == Running <==> |s.ring| >= 2 || k == Running)
            && (|s.ring| == 1 ==> h == Resume(Mark(s, k), rsp))
  {
    if |s.ring| >= 2 {
      hide Handle, Distinct, Without;
      HandleThreads(s, k, rsp);
    } else {
      assert Handle(Mark(s, k), rsp) == Resume(Mark(s, k), rsp);
    }
  }

  // ---------- blocked threads ----------

  /** From aside no event leads back to the processor. */
  lemma {:induction false} AsideForGood(l: Life, t: nat, trace: seq<Event>, r: nat)
    requires l.Aside? || l == Broken
    ensures Follow(l, t, trace).Aside? || Follow(l, t, trace) == Broken
    ensures Gets(trace, t, r) ==> Follow(l, t, trace) == Broken
    decreases |trace|
  {
    if trace != [] {
      AsideForGood(Advance(l, t, trace[0]), t, trace[1..], r);
      if Entered(t, r) == trace[0] { BrokenForGood(t, trace[1..]); }
    }
  }

  lemma {:induction false} BrokenForGood(t: nat, trace: seq<Event>)
    ensures Follow(Broken, t, trace) == Broken
    decreases |trace|
  {
    if trace != [] { BrokenForGood(t, trace[1..]); }
  }

  /** A thread that blocked never runs again, whatever follows: mutex_unlock makes it ready without putting it back on
      the ring. */
  lemma BlockedNeverRunsAgain(m: Machine, ops: seq<Op>, main: nat, idle: nat, m': Machine, trace: seq<Event>, t: nat, r: nat)
    requires MachineInv(m, main, idle) && Reaches(m, ops, main, idle, m', trace) && LifeIn(m.s, t).Aside?
    ensures !Gets(trace, t, r) && t != m'.s.current
  {
    RunLives(m, ops, main, idle, m', trace, t);
    AsideForGood(LifeIn(m.s, t), t, trace, r);
  }
}
