/** The hand-off mutex on values: every interleaving of callers that lock, are resumed, and unlock. */
module MutexRuns {
  import opened Basics
  import opened Sequences

  /** Where a thread stands: not at the mutex, blocked in its queue, woken with the mutex handed over, or past
      mutex_lock. */
  datatype Phase = Outside | Waiting | Granted | Inside

  /** The mutex, with its queue from head to tail, and the threads' phases. */
  datatype Mutex = Mutex(locked: bool, queue: seq<nat>, phase: map<nat, Phase>)

  datatype Op =
    | Lock(t: nat)    // the section of mutex_lock up to its return or its yield
    | Resume(t: nat)  // a ready thread goes on after its yield and returns from mutex_lock
    | Unlock(t: nat)

  function PhaseOf(m: Mutex, t: nat): Phase { if t in m.phase then m.phase[t] else Outside }

  /** Correct callers lock only from outside and unlock only what they hold; any woken thread may go on at any time. */
  predicate Legal(m: Mutex, op: Op) {
    match op
    case Lock(t) => PhaseOf(m, t) == Outside
    case Resume(t) => PhaseOf(m, t) == Granted
    case Unlock(t) => PhaseOf(m, t) == Inside
  }

  function Step(m: Mutex, op: Op): Mutex {
    match op
    case Lock(t) =>
      if !m.locked then m.(locked := true, phase := m.phase[t := Inside])
      else m.(queue := m.queue + [t], phase := m.phase[t := Waiting])
    case Resume(t) => m.(phase := m.phase[t := Inside])
    case Unlock(t) =>
      if m.queue == [] then m.(locked := false, phase := m.phase[t := Outside])
      else m.(queue := m.queue[1..], phase := m.phase[t := Outside][m.queue[0] := Granted])
  }

  predicate Owns(m: Mutex, t: nat) { PhaseOf(m, t) == Granted || PhaseOf(m, t) == Inside }

  /** The queue holds exactly the waiting threads; the mutex is locked exactly when it has its one owner. */
  ghost predicate MutexInv(m: Mutex) {
    && Distinct(m.queue)
    && (forall t :: t in m.queue <==> PhaseOf(m, t) == Waiting)
    && (forall t, u :: Owns(m, t) && Owns(m, u) ==> t == u)
    && (m.locked <==> exists t :: Owns(m, t))
    && (m.queue != [] ==> m.locked)
  }

  lemma StepKeepsInv(m: Mutex, op: Op)
    requires MutexInv(m) && Legal(m, op)
    ensures MutexInv(Step(m, op))
  {
    var m' := Step(m, op);
    assert forall u :: Owns(m', u) ==> Owns(m, u) || u == op.t || (m.queue != [] && u == m.queue[0]);
    match op
    case Lock(t) =>
      if m.locked {
        AppendDistinct(m.queue, t);
        var u :| Owns(m, u);
        assert Owns(m', u);
      } else {
        assert Owns(m', t);
      }
    case Resume(t) =>
      assert Owns(m, t) && Owns(m', t);
    case Unlock(t) =>
      assert Owns(m, t);
      if m.queue != [] {
        TailDistinct(m.queue);
        assert m.queue[0] in m.queue;
        assert Owns(m', m.queue[0]);
      }
  }

  ghost predicate Reaches(m: Mutex, ops: seq<Op>, m': Mutex)
    decreases |ops|
  {
    if ops == [] then m' == m else Legal(m, ops[0]) && Reaches(Step(m, ops[0]), ops[1..], m')
  }

  /** Mutual exclusion in every interleaving: no two threads are past mutex_lock, waiters imply a locked mutex, and none
      of them holds it. */
  lemma {:induction false} MutualExclusion(m: Mutex, ops: seq<Op>, m': Mutex)
    requires MutexInv(m) && Reaches(m, ops, m')
    ensures MutexInv(m')
    decreases |ops|
  {
    hide MutexInv, Step, Legal;
    if ops != [] {
      StepKeepsInv(m, ops[0]);
      MutualExclusion(Step(m, ops[0]), ops[1..], m');
    }
  }

  // ---------- arrival order ----------

  /** The threads that called mutex_lock, in order. */
  function Arrivals(ops: seq<Op>): seq<nat> {
    if ops == [] then [] else ArrivalIn(ops[0]) + Arrivals(ops[1..])
  }

  /** The threads that got past mutex_lock, in order. */
  function Entries(m: Mutex, ops: seq<Op>): seq<nat>
    decreases |ops|
  {
    if ops == [] then [] else EntryIn(m, ops[0]) + Entries(Step(m, ops[0]), ops[1..])
  }

  function ArrivalIn(op: Op): seq<nat> { if op.Lock? then [op.t] else [] }

  function EntryIn(m: Mutex, op: Op): seq<nat> {
    if PhaseOf(m, op.t) != Inside && PhaseOf(Step(m, op), op.t) == Inside then [op.t] else []
  }

  /** The woken owner that has not resumed yet, if any. */
  ghost predicate IsPending(m: Mutex, p: seq<nat>) {
    if p == [] then forall t :: PhaseOf(m, t) != Granted else |p| == 1 && PhaseOf(m, p[0]) == Granted
  }

  /** Nobody overtakes: those who arrived are, in the order of their arrival, those who entered, then the woken owner on its
      way, then the queue. */
  lemma {:induction false} ArrivalOrder(m: Mutex, ops: seq<Op>, m': Mutex, p: seq<nat>, p': seq<nat>)
    requires MutexInv(m) && Reaches(m, ops, m') && IsPending(m, p) && IsPending(m', p')
    ensures p + m.queue + Arrivals(ops) == Entries(m, ops) + p' + m'.queue
    decreases |ops|
  {
    hide MutexInv, Step, Legal, EntryIn, ArrivalIn, PendingAfter, IsPending;
    if ops == [] {
      PendingUnique(m, p, p');
    } else {
      StepKeepsInv(m, ops[0]);
      var m1 := Step(m, ops[0]);
      var p1 := PendingAfter(m, ops[0], p);
      StepOrder(m, ops[0], p);
      ArrivalOrder(m1, ops[1..], m', p1, p');
      Regroup(p + m.queue, ArrivalIn(ops[0]), EntryIn(m, ops[0]), p1 + m1.queue, Arrivals(ops[1..]), Entries(m1, ops[1..]), p' + m'.queue);
      OrderAt(m, ops, m', p');
    }
  }

  lemma OrderAt(m: Mutex, ops: seq<Op>, m': Mutex, p': seq<nat>)
    requires ops != []
    ensures Arrivals(ops) == ArrivalIn(ops[0]) + Arrivals(ops[1..])
    ensures Entries(m, ops) + p' + m'.queue == EntryIn(m, ops[0]) + Entries(Step(m, ops[0]), ops[1..]) + (p' + m'.queue)
  {
  }

  lemma Regroup(x: seq<nat>, a: seq<nat>, e: seq<nat>, y: seq<nat>, b: seq<nat>, f: seq<nat>, z: seq<nat>)
    requires x + a == e + y && y + b == f + z
    ensures x + (a + b) == e + f + z
  {
    assert x + (a + b) == (x + a) + b;
    assert (e + y) + b == e + (y + b);
    assert e + (f + z) == e + f + z;
  }

  lemma PendingUnique(m: Mutex, p: seq<nat>, p': seq<nat>)
    requires MutexInv(m) && IsPending(m, p) && IsPending(m, p')
    ensures p == p'
  {
    if p != [] && p' != [] { assert Owns(m, p[0]) && Owns(m, p'[0]); }
  }

  function PendingAfter(m: Mutex, op: Op, p: seq<nat>): seq<nat> {
    match op
    case Lock(_) => p
    case Resume(_) => []
    case Unlock(_) => if m.queue == [] then [] else [m.queue[0]]
  }

  lemma StepOrder(m: Mutex, op: Op, p: seq<nat>)
    requires MutexInv(m) && Legal(m, op) && IsPending(m, p)
    ensures IsPending(Step(m, op), PendingAfter(m, op, p))
    ensures var m1 := Step(m, op);
            p + m.queue + ArrivalIn(op) == EntryIn(m, op) + (PendingAfter(m, op, p) + m1.queue)
  {
    hide Distinct;
    if p != [] { assert Owns(m, p[0]); }
    match op
    case Lock(t) => assert forall u :: PhaseOf(Step(m, op), u) == if u == t then (if m.locked then Waiting else Inside) else PhaseOf(m, u);
    case Resume(t) => OthersOut(m, op);
    case Unlock(t) => OthersOut(m, op);
  }

  /** After the owner resumed or let go without a waiter, nobody is on the way to the mutex. */
  lemma OthersOut(m: Mutex, op: Op)
    requires MutexInv(m) && Legal(m, op) && !op.Lock?
    ensures op.Resume? || m.queue == [] ==> forall u :: PhaseOf(Step(m, op), u) != Granted
    ensures op.Resume? ==> forall u :: PhaseOf(m, u) == Granted ==> u == op.t
    ensures op.Unlock? ==> forall u :: PhaseOf(m, u) != Granted
  {
    assert Owns(m, op.t);
    assert forall u :: PhaseOf(m, u) == Granted ==> Owns(m, u);
    if op.Resume? || m.queue == [] {
      var m' := Step(m, op);
      assert forall u :: PhaseOf(m', u) == if u == op.t then (if op.Resume? then Inside else Outside) else PhaseOf(m, u);
    }
  }

  /** From an unused mutex the threads get in exactly in the order in which they came. */
  lemma FirstComeFirstServed(ops: seq<Op>, m': Mutex)
    requires Reaches(Mutex(false, [], map[]), ops, m')
    ensures Entries(Mutex(false, [], map[]), ops) <= Arrivals(ops)
  {
    hide MutexInv, Reaches, Entries, Arrivals, Distinct, IsPending, Step, Legal;
    var m := Mutex(false, [], map[]);
    Unused();
    MutualExclusion(m, ops, m');
    var p' := SomePending(m');
    ArrivalOrder(m, ops, m', [], p');
    PrefixOf(Arrivals(ops), Entries(m, ops), p', m'.queue);
  }

  lemma PrefixOf(a: seq<nat>, e: seq<nat>, p: seq<nat>, q: seq<nat>)
    requires [] + [] + a == e + p + q
    ensures e <= a
  {
    assert e + p + q == e + (p + q);
    assert [] + [] + a == a;
  }

  lemma Unused()
    ensures MutexInv(Mutex(false, [], map[])) && IsPending(Mutex(false, [], map[]), [])
  {
  }

  ghost function SomePending(m: Mutex): (p: seq<nat>)
    ensures IsPending(m, p)
  {
    if t :| PhaseOf(m, t) == Granted then [t] else []
  }
}
