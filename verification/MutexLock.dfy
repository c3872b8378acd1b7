/** The hand-off mutex as it runs: a queue of threads linked through their `next_blocked` fields. */
module MutexLock {
  import opened Basics
  import opened Sequences
  import MutexRuns
  import opened Scheduling

  class Mutex {
    var locked: bool
    var head: Pointer                  // blocked_head
    var tail: Pointer                  // blocked_tail
    var next: map<nat, Pointer>        // next_blocked of every thread
    var state: map<nat, State>         // state of every thread
    ghost var queue: seq<nat>
    ghost var phase: map<nat, MutexRuns.Phase>

    ghost predicate Valid()
      reads this
    {
      && head == HeadOf(queue) && tail == (if queue == [] then Null else To(queue[|queue| - 1]))
      && Chained(next, queue) && Distinct(queue)
      && forall t :: t in queue ==> t in state && state[t] == Blocked
    }

    /** The mutex on values. */
    ghost function View(): MutexRuns.Mutex
      reads this
    {
      MutexRuns.Mutex(locked, queue, phase)
    }

    /** mutex_init. */
    constructor ()
      ensures Valid() && View() == MutexRuns.Mutex(false, [], map[]) && state == map[]
    {
      locked, head, tail, next, state, queue, phase := false, Null, Null, map[], map[], [], map[];
    }

    /** mutex_lock by thread t, up to its return (`acquired`) or its yield. */
    method Lock(t: nat) returns (acquired: bool)
      requires Valid() && MutexRuns.MutexInv(View()) && MutexRuns.Legal(View(), MutexRuns.Lock(t))
      modifies this
      ensures Valid() && View() == MutexRuns.Step(old(View()), MutexRuns.Lock(t))
      ensures acquired <==> MutexRuns.PhaseOf(View(), t) == MutexRuns.Inside
      ensures state == if acquired then old(state) else old(state)[t := Blocked]
    {
      hide Distinct, Chained, MutexRuns.MutexInv;
      if !locked {
        locked := true;
        phase := phase[t := MutexRuns.Inside];
        return true;
      }
      NotQueued(View(), t);
      ChainAppend(next, queue, t);
      AppendDistinct(queue, t);
      state := state[t := Blocked];
      next := next[t := Null];
      if head == Null {
        head := To(t);
        tail := To(t);
      } else {
        next := next[tail.id := To(t)];
        tail := To(t);
      }
      queue := queue + [t];
      phase := phase[t := MutexRuns.Waiting];
      acquired := false;
    }

    /** mutex_unlock: the mutex is free again, or passes to the thread at the head of the queue. */
    method Unlock(ghost t: nat) returns (woken: Pointer)
      requires Valid() && MutexRuns.Legal(View(), MutexRuns.Unlock(t))
      modifies this
      ensures Valid() && View() == MutexRuns.Step(old(View()), MutexRuns.Unlock(t))
      ensures woken == HeadOf(old(queue)) && state == if woken.To? then old(state)[woken.id := Ready] else old(state)
    {
      hide Distinct, Chained;
      phase := phase[t := MutexRuns.Outside];
      if head == Null {
        locked := false;
        return Null;
      }
      ChainPop(next, queue);
      TailDistinct(queue);
      var w := head.id;
      head := next[w];
      if head == Null {
        tail := Null;
      }
      state := state[w := Ready];
      next := next[w := Null];
      queue := queue[1..];
      phase := phase[w := MutexRuns.Granted];
      woken := To(w);
    }
  }

  lemma NotQueued(m: MutexRuns.Mutex, t: nat)
    requires MutexRuns.MutexInv(m) && MutexRuns.PhaseOf(m, t) != MutexRuns.Waiting
    ensures t !in m.queue
  {
  }

  lemma ChainAppend(next: map<nat, Pointer>, q: seq<nat>, t: nat)
    requires Chained(next, q) && Distinct(q) && t !in q
    ensures q == [] ==> Chained(next[t := Null], q + [t])
    ensures q != [] ==> Chained(next[t := Null][q[|q| - 1] := To(t)], q + [t])
  {
  }

  lemma ChainPop(next: map<nat, Pointer>, q: seq<nat>)
    requires Chained(next, q) && Distinct(q) && q != []
    ensures q[0] in next && next[q[0]] == HeadOf(q[1..])
    ensures Chained(next[q[0] := Null], q[1..])
  {
  }
}
