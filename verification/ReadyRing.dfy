/** The scheduler as it runs: threads relinked in place on a doubly linked ring and on the dead list. */
module ReadyRing {
  import opened Basics
  import opened Sequences
  import opened Scheduling

  /** The `next` and `prev` fields of all threads. */
  datatype Links = Links(next: map<nat, Pointer>, prev: map<nat, Pointer>)

  /** Position i and its successor on the ring point to each other. */
  ghost predicate NodeOK(l: Links, ring: seq<nat>, i: nat)
    requires i < |ring|
  {
    var j := Around(i + 1, |ring|);
    && ring[i] in l.next && ring[j] in l.prev
    && l.next[ring[i]] == To(ring[j]) && l.prev[ring[j]] == To(ring[i])
  }

  ghost predicate RingLinked(l: Links, ring: seq<nat>) {
    forall i {:trigger ring[i]} :: 0 <= i < |ring| ==> NodeOK(l, ring, i)
  }

  lemma NodeAt(l: Links, ring: seq<nat>, i: nat)
    requires RingLinked(l, ring) && i < |ring|
    ensures NodeOK(l, ring, i)
  {
  }

  /** The predecessor of position k. */
  function Back(k: nat, n: nat): (i: nat)
    requires k < n
    ensures i < n && Around(i + 1, n) == k
  {
    if k == 0 then n - 1 else k - 1
  }

  // ---------- enqueue_thread ----------

  function EnqueueLinks(l: Links, head: nat, tail: nat, t: nat): Links {
    Links(l.next[tail := To(t)][t := To(head)], l.prev[t := To(tail)][head := To(t)])
  }

  lemma EnqueueLinked(l: Links, ring: seq<nat>, t: nat)
    requires ring != [] && RingLinked(l, ring) && Distinct(ring) && t !in ring
    ensures RingLinked(EnqueueLinks(l, ring[0], ring[|ring| - 1], t), ring + [t])
  {
    hide RingLinked;
    var n := |ring|;
    var l', r := EnqueueLinks(l, ring[0], ring[n - 1], t), ring + [t];
    forall i: nat | i < |r|
      ensures NodeOK(l', r, i)
    {
      if i < n {
        NodeAt(l, ring, i);
        assert ring[i] in ring;
        if i + 1 < n { assert ring[i + 1] in ring && ring[i] != ring[n - 1] && ring[i + 1] != ring[0]; }
      }
    }
    RingIs(l', r);
  }

  lemma RingIs(l: Links, ring: seq<nat>)
    requires forall i: nat :: i < |ring| ==> NodeOK(l, ring, i)
    ensures RingLinked(l, ring)
  {
  }

  // ---------- dequeue_thread ----------

  /** The neighbours of t are joined, and its own links cleared. */
  function DequeueLinks(l: Links, t: nat, before: nat, after: nat): Links {
    Links(l.next[before := To(after)][t := Null], l.prev[after := To(before)][t := Null])
  }

  lemma RemovedNeighbour(ring: seq<nat>, k: nat, j: nat)
    requires k < |ring| && j + 1 < |ring|
    ensures var r, o := Removed(ring, k), if j < k then j else j + 1;
            && |r| == |ring| - 1 && r[j] == ring[o]
            && r[Around(j + 1, |r|)] == ring[if Around(o + 1, |ring|) == k then Around(k + 1, |ring|) else Around(o + 1, |ring|)]
            && (Around(o + 1, |ring|) == k <==> o == Back(k, |ring|))
  {
  }

  lemma DequeueLinked(l: Links, ring: seq<nat>, k: nat)
    requires k < |ring| && |ring| >= 2 && RingLinked(l, ring) && Distinct(ring)
    ensures var n := |ring|;
            RingLinked(DequeueLinks(l, ring[k], ring[Back(k, n)], ring[Around(k + 1, n)]), Removed(ring, k))
  {
    hide Distinct, RingLinked, Removed;
    var n := |ring|;
    var l', r := DequeueLinks(l, ring[k], ring[Back(k, n)], ring[Around(k + 1, n)]), Removed(ring, k);
    RemovedElements(ring, k);
    forall j: nat | j < |r|
      ensures NodeOK(l', r, j)
    {
      RemovedNeighbour(ring, k, j);
      DequeueNode(l, ring, k, if j < k then j else j + 1);
    }
    RingIs(l', r);
  }

  /** Position o keeps its successor, unless that is the one taken out. */
  lemma DequeueNode(l: Links, ring: seq<nat>, k: nat, o: nat)
    requires k < |ring| && |ring| >= 2 && o < |ring| && o != k && RingLinked(l, ring) && Distinct(ring)
    ensures var n := |ring|;
            var l' := DequeueLinks(l, ring[k], ring[Back(k, n)], ring[Around(k + 1, n)]);
            var j := if o == Back(k, n) then Around(k + 1, n) else Around(o + 1, n);
            && ring[o] in l'.next && ring[j] in l'.prev
            && l'.next[ring[o]] == To(ring[j]) && l'.prev[ring[j]] == To(ring[o])
  {
    hide Distinct, RingLinked;
    var n := |ring|;
    NodeAt(l, ring, o);
    DistinctAt(ring, o, k);
    DistinctAt(ring, o, Back(k, n));
    DistinctAt(ring, Around(o + 1, n), k);
    DistinctAt(ring, Around(o + 1, n), Around(k + 1, n));
    DistinctAt(ring, Around(k + 1, n), k);
    DistinctAt(ring, Back(k, n), k);
  }

  /** Links of threads off the ring do not matter to it. */
  lemma RingApart(l: Links, ring: seq<nat>, t: nat, p: Pointer)
    requires RingLinked(l, ring) && t !in ring
    ensures RingLinked(l.(next := l.next[t := p]), ring)
  {
    var l' := l.(next := l.next[t := p]);
    forall i: nat | i < |ring|
      ensures NodeOK(l', ring, i)
    {
      NodeAt(l, ring, i);
      assert ring[i] in ring;
    }
    RingIs(l', ring);
  }

  // ---------- lists of threads off the ring ----------

  ghost predicate Apart(ring: seq<nat>, dead: seq<nat>) {
    forall t :: t in ring ==> t !in dead
  }

  /** A list linked through `next`, of threads that are not on the ring. */
  ghost predicate OffRing(next: map<nat, Pointer>, ring: seq<nat>, list: seq<nat>) {
    Chained(next, list) && Distinct(list) && Apart(ring, list)
  }

  lemma EnqueueOff(l: Links, ring: seq<nat>, list: seq<nat>, t: nat)
    requires ring != [] && OffRing(l.next, ring, list) && t !in list
    ensures OffRing(EnqueueLinks(l, ring[0], ring[|ring| - 1], t).next, ring + [t], list)
  {
    assert ring[0] in ring && ring[|ring| - 1] in ring;
  }

  lemma DequeueOff(l: Links, ring: seq<nat>, k: nat, list: seq<nat>)
    requires k < |ring| && Distinct(ring) && OffRing(l.next, ring, list)
    ensures var n := |ring|;
            && OffRing(DequeueLinks(l, ring[k], ring[Back(k, n)], ring[Around(k + 1, n)]).next, Removed(ring, k), list)
            && OffRing(l.next[ring[k] := Null], Removed(ring, k), list)
            && ring[k] !in list
  {
    var n := |ring|;
    assert ring[k] in ring && ring[Back(k, n)] in ring && ring[Around(k + 1, n)] in ring;
    RemovedApart(ring, list, k);
    hide Distinct, Removed;
  }

  /** A link of a thread outside the list. */
  lemma OtherOff(next: map<nat, Pointer>, ring: seq<nat>, list: seq<nat>, t: nat, p: Pointer)
    requires OffRing(next, ring, list) && t !in list
    ensures OffRing(next[t := p], ring, list)
  {
  }

  lemma FirstOff(next: map<nat, Pointer>, list: seq<nat>, t: nat)
    requires OffRing(next, [], list) && t !in list
    ensures OffRing(next[t := To(t)], [t], list)
  {
  }

  lemma PushOff(next: map<nat, Pointer>, ring: seq<nat>, list: seq<nat>, t: nat)
    requires OffRing(next, ring, list) && t !in ring && t !in list
    ensures OffRing(next[t := HeadOf(list)], ring, [t] + list)
  {
    var next', d := next[t := HeadOf(list)], [t] + list;
    forall i | 0 <= i < |d|
      ensures d[i] in next' && next'[d[i]] == if i + 1 < |d| then To(d[i + 1]) else Null
    {
      if i > 0 { assert d[i] == list[i - 1] && list[i - 1] in list; }
    }
    PushDistinct(list, t);
  }

  /** The rest of a list. */
  lemma TailOff(next: map<nat, Pointer>, ring: seq<nat>, list: seq<nat>)
    requires OffRing(next, ring, list) && list != []
    ensures OffRing(next, ring, list[1..]) && list[0] in next && next[list[0]] == HeadOf(list[1..])
    ensures list[0] !in ring && list[0] !in list[1..]
  {
    TailDistinct(list);
  }

  lemma EmptyOff(next: map<nat, Pointer>, ring: seq<nat>)
    ensures OffRing(next, ring, [])
  {
  }

  // ---------- the scheduler ----------

  class Scheduler {
    var info: map<nat, Thread>     // thread_t, apart from the list links
    var next: map<nat, Pointer>
    var prev: map<nat, Pointer>
    var procs: map<nat, Process>
    var head: Pointer              // ready_list_head
    var deadHead: Pointer          // dead_list_head
    var current: nat               // current_thread
    var stacks: Pointer            // us_list_head
    var cr3: nat
    var rsp0: nat                  // tss.rsp0 and sstacks.kernel_rsp
    ghost var ring: seq<nat>
    ghost var dead: seq<nat>
    var walk: Pointer              // the thread cleanup_dead_threads hands over next
    ghost var doomed: seq<nat>     // those it still has to hand over

    function Fields(): Links
      reads this
    {
      Links(next, prev)
    }

    ghost function View(): Sched
      reads this
    {
      Sched(ring, dead, doomed, current, info, procs, stacks, cr3, rsp0)
    }

    ghost predicate Valid()
      reads this
    {
      && head == HeadOf(ring) && deadHead == HeadOf(dead) && walk == HeadOf(doomed)
      && RingLinked(Fields(), ring) && Distinct(ring)
      && OffRing(next, ring, dead) && OffRing(next, ring, doomed) && Apart(dead, doomed)
    }

    /** The first thread of init_scheduler: running, alone on the ring. Its process is whatever its descriptor held. */
    constructor (t: nat, process: Pointer, top: nat, cr3: nat)
      ensures Valid() && View() == Sched([t], [], [], t, map[t := Thread(0, Running, process, top)], map[], Null, cr3, rsp0)
    {
      info, procs := map[t := Thread(0, Running, process, top)], map[];
      next, prev := map[t := To(t)], map[t := To(t)];
      head, deadHead, walk, current, stacks := To(t), Null, Null, t, Null;
      this.cr3 := cr3;
      ring, dead, doomed := [t], [], [];
    }

    /** enqueue_thread. */
    method Enqueue(t: nat)
      requires Valid() && t !in ring && t !in dead && t !in doomed
      modifies this`next, this`prev, this`head, this`ring
      ensures Valid() && ring == old(ring) + [t]
    {
      hide Distinct, RingLinked, OffRing;
      ghost var l := Fields();
      AppendDistinct(ring, t);
      if head == Null {
        assert ring == [];
        FirstOff(next, dead, t);
        FirstOff(next, doomed, t);
        next, prev, head := next[t := To(t)], prev[t := To(t)], To(t);
        assert ring + [t] == [t];
        ring := [t];
        SingleLinked(Fields(), t);
      } else {
        var h := head.id;
        NodeAt(l, ring, |ring| - 1);
        var tail := prev[h].id;
        EnqueueLinked(l, ring, t);
        EnqueueOff(l, ring, dead, t);
        EnqueueOff(l, ring, doomed, t);
        next := next[tail := To(t)];
        prev := prev[t := To(tail)];
        next := next[t := To(h)];
        prev := prev[h := To(t)];
        ring := ring + [t];
      }
    }

    /** dequeue_thread. */
    method Dequeue(t: nat, ghost k: nat)
      requires Valid() && k < |ring| && ring[k] == t
      modifies this`next, this`prev, this`head, this`ring
      ensures Valid() && ring == Removed(old(ring), k)
      ensures t !in ring && t !in dead && t !in doomed
    {
      hide Distinct, RingLinked, OffRing, Apart;
      ghost var l, n := Fields(), |ring|;
      NodeAt(l, ring, k);
      NodeAt(l, ring, Back(k, n));
      RemovedDistinct(ring, k);
      RemovedMembers(ring, k, t);
      DequeueOff(l, ring, k, dead);
      DequeueOff(l, ring, k, doomed);
      if next[t] == To(t) {
        DistinctAt(ring, k, Around(k + 1, n));
        head := Null;
        next, prev := next[t := Null], prev[t := Null];
        NothingLinked(Fields());
      } else {
        DequeueLinked(l, ring, k);
        DistinctAt(ring, 0, k);
        var before, after := prev[t].id, next[t].id;
        next := next[before := To(after)];
        prev := prev[after := To(before)];
        if head == To(t) {
          head := To(after);
        }
        next, prev := next[t := Null], prev[t := Null];
      }
      RemovedHead(ring, k);
      ring := Removed(ring, k);
    }

    /** The first part of scheduler_handler: the old thread leaves, and the search will start at `start`. */
    method LeaveProcessor(oldRsp: nat) returns (start: nat, gone: bool, ghost i: nat)
      requires Valid() && WF(View()) && |ring| >= 2
      modifies this
      ensures Valid() && View() == Leave(old(View()), oldRsp)
      ensures gone == (old(info)[old(current)].state == Dead || old(info)[old(current)].state == Blocked)
      ensures i == (if gone then 0 else Around(IndexOf(old(ring), old(current)) + 1, |old(ring)|))
      ensures i < |ring| && start == ring[i]
    {
      hide Distinct, RingLinked, OffRing, Leave, WF, Removed, Without, Apart, IndexOf;
      LeaveIs(View(), oldRsp);
      var t := current;
      ghost var k := IndexOf(ring, t);
      NodeAt(Fields(), ring, k);
      i := Around(k + 1, |ring|);
      start := next[t].id;
      gone := info[t].state == Dead || info[t].state == Blocked;
      if info[t].state == Dead {
        Dequeue(t, k);
        DeadToo(t);
      } else if info[t].state == Blocked {
        info := info[t := info[t].(rsp := oldRsp)];
        Dequeue(t, k);
      } else {
        info := info[t := info[t].(rsp := oldRsp, state := Ready)];
      }
      if gone {
        start, i := head.id, 0;
      }
    }

    /** A thread taken off the ring goes to the front of the dead list. */
    method DeadToo(t: nat)
      requires Valid() && t !in ring && t !in dead && t !in doomed
      modifies this`next, this`deadHead, this`dead
      ensures Valid() && dead == [t] + old(dead)
    {
      hide Distinct, RingLinked, OffRing;
      PushOff(next, ring, dead, t);
      OtherOff(next, ring, doomed, t, deadHead);
      RingApart(Fields(), ring, t, deadHead);
      next := next[t := deadHead];
      deadHead := To(t);
      dead := [t] + dead;
    }

    /** The search loop: from `start` around the ring to the first thread that can run, if any. */
    method FindNext(start: nat, ghost s: nat) returns (found: bool, t: nat)
      requires Valid() && s < |ring| && start == ring[s] && forall x :: x in ring ==> x in info
      ensures var i := Pick(View(), s, 0);
              found == (i < |ring|) && (found ==> t == ring[i])
    {
      hide Distinct, RingLinked, OffRing, Pick;
      ghost var j, n := 0, |ring|;
      t := start;
      while info[t].state != Ready && info[t].state != Running
        invariant j < n && t == ring[Around(s + j, n)] && t in info
        invariant Pick(View(), s, j) == Pick(View(), s, 0)
        decreases n - j
      {
        PickStep(View(), s, j);
        NodeAt(Fields(), ring, Around(s + j, n));
        t := next[t].id;
        j := j + 1;
        if t == start {
          PickStep(View(), s, n);
          DistinctAt(ring, s, if j < n then Around(s + j, n) else s);
          return false, t;
        }
      }
      PickStep(View(), s, j);
      found := true;
    }

    /** The last part of scheduler_handler: t gets the processor. */
    method EnterThread(was: nat, t: nat)
      requires Valid() && was in info && t in info && KnownProcess(View(), info[was].process) && KnownProcess(View(), info[t].process)
      modifies this`info, this`current, this`procs, this`stacks, this`cr3, this`rsp0
      ensures Valid() && View() == Enter(old(View()), was, t)
    {
      hide Distinct, RingLinked, OffRing, SwitchProcess;
      info := info[t := info[t].(state := Running)];
      current := t;
      ChangeProcess(info[was].process, info[t].process);
      rsp0 := info[t].top;
    }

    /** The user-stack list and CR3 follow the process. */
    method ChangeProcess(was: Pointer, now: Pointer)
      requires KnownProcess(View(), was) && KnownProcess(View(), now)
      modifies this`procs, this`stacks, this`cr3
      ensures View() == SwitchProcess(old(View()), was, now)
    {
      if was != now {
        if was.To? {
          procs := procs[was.id := procs[was.id].(stacks := stacks)];
        }
        if now.To? {
          stacks := procs[now.id].stacks;
          if cr3 != procs[now.id].pml4 {
            cr3 := procs[now.id].pml4;
          }
        } else {
          stacks := Null;
        }
      }
    }

    /** scheduler_handler. When the only threads left on the ring cannot run the code loops for ever, which is why that is excluded. */
    method Handler(oldRsp: nat) returns (rsp: nat)
      requires Valid() && WF(View()) && !Handle(View(), oldRsp).Hang?
      modifies this
      ensures Valid() && Handle(old(View()), oldRsp) == Resume(View(), rsp)
    {
      hide Distinct, RingLinked, OffRing, Leave, Enter, Pick;
      var alone := Alone();
      if alone {
        return oldRsp;
      }
      ghost var s := View();
      var was := current;
      var start, gone, i := LeaveProcessor(oldRsp);
      LeaveKeeps(s, oldRsp);
      var found, t := FindNext(start, i);
      if !found {
        info := info[was := info[was].(state := Running)];
        return oldRsp;
      }
      rsp := info[t].rsp;
      EnterThread(was, t);
    }

    /** The first test of scheduler_handler. */
    method Alone() returns (alone: bool)
      requires Valid()
      ensures alone == (|ring| <= 1)
    {
      hide Distinct, RingLinked, OffRing;
      if head == Null {
        return true;
      }
      NodeAt(Fields(), ring, 0);
      DistinctAt(ring, 0, Around(1, |ring|));
      alone := next[head.id] == head;
    }

    /** thread_exit: the running thread is marked dead and yields. */
    method ThreadExit(oldRsp: nat) returns (rsp: nat)
      requires Valid() && WF(View()) && !HandleAs(View(), Dead, oldRsp).Hang?
      modifies this
      ensures Valid() && HandleAs(old(View()), Dead, oldRsp) == Resume(View(), rsp)
    {
      hide Distinct, RingLinked, OffRing, Handle, WF;
      MarkKeeps(View());
      info := info[current := info[current].(state := Dead)];
      rsp := Handler(oldRsp);
    }

    /** The first part of cleanup_dead_threads, with interrupts disabled: the dead list is detached. */
    method Detach()
      requires Valid() && doomed == []
      modifies this`deadHead, this`walk, this`dead, this`doomed
      ensures Valid() && View() == old(View()).(dead := [], doomed := old(dead))
    {
      hide Distinct, RingLinked, OffRing;
      EmptyOff(next, ring);
      walk := deadHead;
      deadHead := Null;
      dead, doomed := [], dead;
    }

    /** One turn of the walk, between any other calls: the next thread is handed over for destruction, which frees its
        descriptor. */
    method HandOver() returns (t: nat)
      requires Valid() && doomed != []
      modifies this`info, this`walk, this`doomed
      ensures Valid() && t == old(doomed)[0]
      ensures View() == old(View()).(doomed := old(doomed)[1..], threads := old(info) - {t})
    {
      hide Distinct, RingLinked, OffRing;
      TailOff(next, ring, doomed);
      t := walk.id;
      var nextDead := next[t];
      info := info - {t};
      walk := nextDead;
      doomed := doomed[1..];
    }

    /** cleanup_dead_threads without interruption: each dead thread is handed over once, in list order. */
    method CleanupDead() returns (handed: seq<nat>)
      requires Valid() && doomed == []
      modifies this
      ensures Valid() && handed == old(dead)
      ensures View() == old(View()).(dead := [], threads := old(info) - Elements(old(dead)))
    {
      hide Distinct, RingLinked, OffRing, Elements, Apart;
      ghost var d, m := dead, info;
      DropNone(m, d);
      Detach();
      handed := [];
      while walk.To?
        invariant Valid() && |handed| <= |d| && handed == d[..|handed|] && doomed == d[|handed|..]
        invariant View() == old(View()).(dead := [], doomed := doomed, threads := m - Elements(d[..|handed|]))
        decreases |doomed|
      {
        DropNext(m, d, |handed|);
        assert d[..|handed| + 1] == d[..|handed|] + [d[|handed|]];
        var t := HandOver();
        handed := handed + [t];
      }
      assert d[..|handed|] == d;
    }
  }

  lemma PickStep(s: Sched, start: nat, j: nat)
    requires start < |s.ring| && j <= |s.ring|
    ensures Pick(s, start, j) ==
            if j == |s.ring| then j
            else if CanRun(s, s.ring[Around(start + j, |s.ring|)]) then Around(start + j, |s.ring|)
            else Pick(s, start, j + 1)
  {
  }

  lemma MarkKeeps(s: Sched)
    requires WF(s)
    ensures s.current in s.threads && WF(Mark(s, Dead))
  {
    hide Distinct;
  }

  lemma LeaveIs(s: Sched, rsp: nat)
    requires WF(s)
    ensures s.current in s.ring && s.current in s.threads
    ensures var t, k := s.current, IndexOf(s.ring, s.current);
            && |Removed(s.ring, k)| == |s.ring| - 1
            && Leave(s, rsp) ==
                 if s.threads[t].state == Dead then s.(ring := Removed(s.ring, k), dead := [t] + s.dead)
                 else if s.threads[t].state == Blocked then s.(ring := Removed(s.ring, k), threads := s.threads[t := s.threads[t].(rsp := rsp)])
                 else s.(threads := s.threads[t := s.threads[t].(rsp := rsp, state := Ready)])
  {
    WithoutIs(s.ring, s.current);
  }

  lemma DropNext(m: map<nat, Thread>, d: seq<nat>, k: nat)
    requires k < |d|
    ensures m - Elements(d[..k]) - {d[k]} == m - Elements(d[..k + 1])
  {
    ElementsNext(d, k);
  }

  lemma DropNone(m: map<nat, Thread>, d: seq<nat>)
    ensures m - Elements(d[..0]) == m
  {
  }

  lemma LeaveKeeps(s: Sched, rsp: nat)
    requires WF(s)
    ensures var r := Leave(s, rsp);
            && r.threads.Keys == s.threads.Keys && (forall t :: t in r.threads ==> KnownProcess(r, r.threads[t].process))
            && forall t :: t in r.ring ==> t in r.threads
  {
    hide Distinct, Without;
    WithoutElements(s.ring, s.current);
  }

  lemma RemovedHead(ring: seq<nat>, k: nat)
    requires k < |ring|
    ensures |ring| == 1 ==> Removed(ring, k) == []
    ensures |ring| >= 2 ==> HeadOf(Removed(ring, k)) == if k == 0 then To(ring[Around(1, |ring|)]) else HeadOf(ring)
  {
  }

  lemma SingleLinked(l: Links, t: nat)
    requires t in l.next && t in l.prev && l.next[t] == To(t) && l.prev[t] == To(t)
    ensures RingLinked(l, [t])
  {
    var r := [t];
    assert NodeOK(l, r, 0);
    RingIs(l, r);
  }

  lemma NothingLinked(l: Links)
    ensures RingLinked(l, [])
  {
  }

  lemma RemovedApart(ring: seq<nat>, dead: seq<nat>, k: nat)
    requires k < |ring| && Distinct(ring) && Apart(ring, dead)
    ensures Apart(Removed(ring, k), dead) && ring[k] !in Removed(ring, k) && ring[k] !in dead
  {
    forall t
      ensures t in Removed(ring, k) <==> t in ring && t != ring[k]
    {
      RemovedMembers(ring, k, t);
    }
    assert ring[k] in ring;
  }
}
