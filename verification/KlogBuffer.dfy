/** klog_write and klog_flush_to_screen as they run, store by store. */
module KlogBuffer {
  import opened KlogRuns
  import opened KlogFlush
  import opened KlogOverrun

  /** The buffer holds, published, the log from `lo` to its end, and nothing else. */
  ghost predicate Holds(buf: seq<Slot>, log: string, lo: nat) {
    && |buf| == MAX && lo <= |log| <= lo + MAX
    && (forall p: nat :: lo <= p < |log| ==> buf[Place(p)] == Slot(log[p], true))
    && (forall p: nat :: |log| <= p < lo + MAX ==> !buf[Place(p)].ready)
  }

  /** Publishing one more character drops the oldest one if the buffer is full. */
  lemma HoldsMore(buf: seq<Slot>, log: string, lo: nat, c: char)
    requires Holds(buf, log, lo)
    ensures Holds(buf[Place(|log|) := Slot(c, true)], log + [c], if |log| == lo + MAX then lo + 1 else lo)
  {
    var n := |log|;
    var buf', log' := buf[Place(n) := Slot(c, true)], log + [c];
    var lo' := if n == lo + MAX then lo + 1 else lo;
    PlaceWraps(lo);
    forall p: nat | lo' <= p < |log'|
      ensures buf'[Place(p)] == Slot(log'[p], true)
    {
      if p < n { PlacesDiffer(p, n); }
    }
    forall p: nat | |log'| <= p < lo' + MAX
      ensures !buf'[Place(p)].ready
    {
      PlacesDiffer(n, p);
    }
  }

  /** Clearing the oldest slot. */
  lemma HoldsLess(buf: seq<Slot>, log: string, lo: nat, s: Slot)
    requires Holds(buf, log, lo) && lo < |log| && !s.ready
    ensures Holds(buf[Place(lo) := s], log, lo + 1)
  {
    var buf' := buf[Place(lo) := s];
    PlaceWraps(lo);
    forall p: nat | lo + 1 <= p < |log|
      ensures buf'[Place(p)] == Slot(log[p], true)
    {
      PlacesDiffer(lo, p);
    }
    forall p: nat | |log| <= p < lo + 1 + MAX
      ensures !buf'[Place(p)].ready
    {
      if p < lo + MAX { PlacesDiffer(lo, p); }
    }
  }

  lemma HoldsAt(buf: seq<Slot>, log: string, lo: nat)
    requires Holds(buf, log, lo) && lo < |log|
    ensures |buf| == MAX && buf[Place(lo)] == Slot(log[lo], true)
  {
  }

  /** No call is under way and the buffer holds the newest unread characters. */
  ghost predicate Settled(m: Klog) {
    && m.writers == map[] && m.reader == Idle && m.tail <= m.head == |m.log|
    && Holds(m.buf, m.log, Oldest(m.head, m.tail))
  }

  /** Every calm run that has come to rest is settled. */
  lemma CalmSettles(m: Klog)
    requires KlogInv(m) && m.writers == map[] && m.reader == Idle
    ensures Settled(m)
  {
    hide Place;
    forall p: nat | m.tail <= p < m.tail + MAX
      ensures if p < m.head then m.buf[Place(p)] == Slot(m.log[p], true) else !m.buf[Place(p)].ready
    {
      assert !Pending(m, p);
      SlotAt(m, p);
    }
  }

  /** A flush of a settled log prints exactly what is expected and leaves a settled log. */
  lemma {:induction false} FlushSettles(m: Klog)
    requires Settled(m)
    ensures |m.buf| == MAX && Flushed(m).output == Expected(m) && Flushed(m).tail == m.head && Settled(Flushed(m))
    decreases m.head - Oldest(m.head, m.tail)
  {
    hide Holds, Place, Flushed, Expected, Caught;
    HoldsSize(m.buf, m.log, Oldest(m.head, m.tail));
    FlushTurn(m);
    CaughtIs(m);
    var c := Caught(m);
    if c.tail == c.head {
      ExpectedNone(m);
    } else {
      HoldsAt(m.buf, m.log, c.tail);
      var s := m.buf[Place(c.tail)].(ready := false);
      HoldsLess(m.buf, m.log, c.tail, s);
      var n := OnePrinted(m);
      ExpectedMore(m);
      FlushSettles(n);
    }
  }

  lemma CaughtIs(m: Klog)
    requires m.tail <= m.head
    ensures Caught(m) == m.(tail := Oldest(m.head, m.tail), output := Caught(m).output)
  {
  }

  /** The log after the next character was printed. */
  function OnePrinted(m: Klog): Klog
    requires |m.buf| == MAX && m.tail <= m.head == |m.log| && Caught(m).tail < m.head
  {
    var c := Caught(m);
    c.(buf := m.buf[Place(c.tail) := m.buf[Place(c.tail)].(ready := false)], tail := c.tail + 1, output := c.output + [m.log[c.tail]])
  }

  lemma ExpectedNone(m: Klog)
    requires m.tail <= m.head == |m.log| && Caught(m).tail == m.head
    ensures Caught(m).output == Expected(m)
  {
    assert m.log[m.head..] == "";
    assert m.output + "" + "" == m.output;
  }

  /** Printing one character leaves the rest to be printed. */
  lemma ExpectedMore(m: Klog)
    requires |m.buf| == MAX && m.tail <= m.head == |m.log| && Caught(m).tail < m.head
    ensures Expected(OnePrinted(m)) == Expected(m)
  {
    hide Place;
    var c, n := Caught(m), OnePrinted(m);
    var d := if m.head - m.tail > MAX then "[drop]" else "";
    assert m.log[c.tail..] == [m.log[c.tail]] + m.log[c.tail + 1..];
    assert c.output == m.output + d;
    assert n.output + "" == n.output;
    assert c.output + [m.log[c.tail]] + m.log[c.tail + 1..] == c.output + m.log[c.tail..];
  }

  lemma HoldsSize(buf: seq<Slot>, log: string, lo: nat)
    requires Holds(buf, log, lo)
    ensures |buf| == MAX
  {
  }

  /** The stores of one call of klog_write. */
  function WriteOps(w: nat, s: string): seq<Op> {
    [Reserve(w, s)] + Publish(w, |Truncated(s)|)
  }

  lemma {:induction false} PublishMore(w: nat, n: nat)
    ensures Publish(w, n) + [PutChar(w), PutReady(w)] == Publish(w, n + 1)
  {
    if n == 0 {
      assert Publish(w, 0) == [] && Publish(w, 1) == [PutChar(w), PutReady(w)] + Publish(w, 0);
    } else {
      PublishMore(w, n - 1);
      assert Publish(w, n) == [PutChar(w), PutReady(w)] + Publish(w, n - 1);
    }
  }

  /** A run that goes on with one more published character. */
  lemma RunMore(v: Klog, w: nat, s: string, n: nat, m: Klog)
    requires Runs(v, [Reserve(w, s)] + Publish(w, n), m) && m.reader == Idle && Legal(m, PutChar(w))
    requires Legal(Step(m, PutChar(w)), PutReady(w))
    ensures Runs(v, [Reserve(w, s)] + Publish(w, n + 1), Step(Step(m, PutChar(w)), PutReady(w)))
  {
    hide Legal, Publish, Place;
    var a := [Reserve(w, s)] + Publish(w, n);
    var m1 := Step(m, PutChar(w));
    var m2 := Step(m1, PutReady(w));
    assert [PutChar(w), PutReady(w)][1..] == [PutReady(w)] && [PutReady(w)][1..] == [];
    assert Runs(m2, [], m2);
    assert Runs(m1, [PutReady(w)], m2);
    RunsTwo(v, a, m, [PutChar(w), PutReady(w)], m2);
    PublishMore(w, n);
    assert a + [PutChar(w), PutReady(w)] == [Reserve(w, s)] + Publish(w, n + 1);
  }

  /** The log after i of the characters `t` of writer w. */
  ghost predicate Written(v: Klog, m: Klog, w: nat, t: string, i: nat)
    requires i <= |t|
  {
    && |m.buf| == MAX && m.head == v.head + |t| && m.tail == v.tail && m.output == v.output && m.log == v.log + t && m.reader == Idle
    && m.writers - {w} == v.writers && w !in v.writers
    && (if i < |t| then w in m.writers && m.writers[w] == Writer(v.head, t, i, false) else w !in m.writers)
    && (Settled(v) ==> Holds(m.buf, v.log + t[..i], Oldest(v.head + i, v.tail)))
  }

  /** What the two stores of one turn write. */
  lemma TwoStores(v: Klog, m: Klog, w: nat, t: string, i: nat)
    requires i < |t| && Written(v, m, w, t, i) && v.tail <= v.head == |v.log| && m.tail <= m.head
    requires forall x :: x in m.writers ==> m.writers[x].done < |m.writers[x].text|
    ensures Legal(m, PutChar(w)) && Legal(Step(m, PutChar(w)), PutReady(w))
    ensures Next(m.writers[w]) == v.head + i && m.writers[w].text[m.writers[w].done] == t[i]
    ensures Next(Step(m, PutChar(w)).writers[w]) == v.head + i
    ensures Written(v, Step(Step(m, PutChar(w)), PutReady(w)), w, t, i + 1)
  {
    hide Holds, Place, Settled, Oldest;
    if Settled(v) { MoreHeld(v, m.buf, t, i); }
    StoresWrite(m, w);
  }

  lemma StoresWrite(m: Klog, w: nat)
    requires |m.buf| == MAX && w in m.writers && !m.writers[w].half && forall x :: x in m.writers ==> m.writers[x].done < |m.writers[x].text|
    ensures Legal(m, PutChar(w)) && Legal(Step(m, PutChar(w)), PutReady(w))
    ensures var wr, m2 := m.writers[w], Step(Step(m, PutChar(w)), PutReady(w));
            && m2.(buf := m.buf, writers := m.writers, last := m.last) == m
            && m2.buf == m.buf[Place(Next(wr)) := Slot(wr.text[wr.done], true)] && m2.writers - {w} == m.writers - {w}
            && if wr.done + 1 == |wr.text| then w !in m2.writers else w in m2.writers && m2.writers[w] == wr.(done := wr.done + 1)
  {
    hide Place;
  }

  lemma MoreHeld(v: Klog, buf: seq<Slot>, t: string, i: nat)
    requires i < |t| && v.tail <= v.head == |v.log| && Holds(buf, v.log + t[..i], Oldest(v.head + i, v.tail))
    ensures |buf| == MAX && Holds(buf[Place(v.head + i) := Slot(t[i], true)], v.log + t[..i + 1], Oldest(v.head + i + 1, v.tail))
  {
    HoldsMore(buf, v.log + t[..i], Oldest(v.head + i, v.tail), t[i]);
    HoldsSize(buf, v.log + t[..i], Oldest(v.head + i, v.tail));
    assert v.log + t[..i] + [t[i]] == v.log + t[..i + 1];
    hide Holds, Place;
  }

  lemma WrittenAll(v: Klog, m: Klog, w: nat, t: string)
    requires Written(v, m, w, t, |t|) && v.tail <= v.head == |v.log|
    ensures m.writers == v.writers && (Settled(v) ==> Settled(m))
  {
    hide Holds, Place;
    assert t[..|t|] == t;
    assert m.writers - {w} == m.writers;
  }

  /** The reservation. */
  lemma ReserveIs(v: Klog, w: nat, s: string)
    requires Legal(v, Reserve(w, s)) && v.reader == Idle && v.tail <= v.head == |v.log|
    ensures Written(v, Step(v, Reserve(w, s)), w, Truncated(s), 0) && Truncated(s) != ""
  {
    hide Holds, Place;
    var t := Truncated(s);
    assert t[..0] == "" && v.log + "" == v.log;
    assert v.writers[w := Writer(v.head, t, 0, false)] - {w} == v.writers;
  }

  lemma TruncatedIs(s: string)
    ensures Truncated(s) == s[..if |s| > MAX then MAX else |s|]
  {
    assert s[..|s|] == s;
  }

  class Log {
    const buf: array<Slot>
    var head: nat
    var tail: nat
    ghost var writers: map<nat, Writer> // calls of klog_write under way
    ghost var log: string               // everything reserved
    ghost var output: string            // everything printed
    ghost var last: map<nat, nat>       // the position stored last in each slot

    ghost function View(): Klog
      reads this, buf
    {
      Klog(buf[..], head, tail, writers, Idle, output, log, last)
    }

    ghost predicate Valid()
      reads this, buf
    {
      buf.Length == MAX && tail <= head == |log| && forall w :: w in writers ==> writers[w].done < |writers[w].text|
    }

    /** init_klog over a buffer whose flags are clear. */
    constructor (buffer: array<Slot>)
      requires buffer.Length == MAX && forall q :: 0 <= q < MAX ==> !buffer[q].ready
      ensures Valid() && buf == buffer && Fresh(View())
    {
      buf, head, tail, writers, log, output, last := buffer, 0, 0, map[], "", "", map[];
    }

    /** The first part of klog_write, under its lock: at most 4096 positions are reserved. */
    method Reserve(ghost w: nat, s: string) returns (start: nat, len: nat)
      requires Valid() && Legal(View(), KlogRuns.Reserve(w, s))
      modifies this
      ensures Valid() && View() == Step(old(View()), KlogRuns.Reserve(w, s))
      ensures start == old(head) && len == if |s| > 4096 then 4096 else |s|
      ensures head == start + len && log == old(log) + s[..len]
    {
      TruncatedIs(s);
      len := if |s| > MAX then MAX else |s|;
      start := head;
      head := head + len;
      writers := writers[w := Writer(start, Truncated(s), 0, false)];
      log := log + Truncated(s);
    }

    /** The two stores of klog_write's loop, between which any other call may run. */
    method StoreChar(ghost w: nat, p: nat, c: char)
      requires Valid() && Legal(View(), PutChar(w))
      requires p == Next(writers[w]) && c == writers[w].text[writers[w].done]
      modifies this, buf
      ensures Valid() && View() == Step(old(View()), PutChar(w))
    {
      var pos := Place(p);
      buf[pos] := buf[pos].(c := c);
      last := last[pos := p];
      writers := writers[w := writers[w].(half := true)];
    }

    method SetReady(ghost w: nat, p: nat)
      requires Valid() && Legal(View(), PutReady(w)) && p == Next(writers[w])
      modifies this, buf
      ensures Valid() && View() == Step(old(View()), PutReady(w))
    {
      var pos := Place(p);
      buf[pos] := buf[pos].(ready := true);
      writers := if writers[w].done + 1 == |writers[w].text| then writers - {w}
                 else writers[w := writers[w].(done := writers[w].done + 1, half := false)];
    }

    /** klog_write without interruption: a run of its stores, after which a settled log is settled again. */
    method Write(ghost w: nat, s: string)
      requires Valid() && w !in writers
      modifies this, buf
      ensures Valid() && writers == old(writers) && tail == old(tail) && output == old(output)
      ensures log == old(log) + s[..if |s| > 4096 then 4096 else |s|]
      ensures |s| <= 4096 ==> log == old(log) + s
      ensures s != "" ==> Runs(old(View()), WriteOps(w, s), View())
      ensures Settled(old(View())) ==> Settled(View())
    {
      hide Holds, Place, Publish, Runs, Step, Settled, Truncated, Oldest;
      TruncatedIs(s);
      if |s| == 0 {
        assert s == "" && log + "" == log;
        return;
      }
      ghost var v := View();
      ghost var t := Truncated(s);
      ReserveIs(v, w, s);
      var start, len := Reserve(w, s);
      StartRun(v, w, s);
      var i := 0;
      while i < len
        invariant 0 <= i <= len && len == |t| && start == v.head && Valid()
        invariant Written(v, View(), w, t, i)
        invariant Runs(v, [KlogRuns.Reserve(w, s)] + Publish(w, i), View())
      {
        ghost var m := View();
        TwoStores(v, m, w, t, i);
        StoreChar(w, start + i, s[i]);
        SetReady(w, start + i);
        RunMore(v, w, s, i, m);
        i := i + 1;
      }
      WrittenAll(v, View(), w, t);
    }

    lemma StartRun(v: Klog, w: nat, s: string)
      requires Legal(v, KlogRuns.Reserve(w, s)) && v.reader == Idle
      ensures Runs(v, [KlogRuns.Reserve(w, s)] + Publish(w, 0), Step(v, KlogRuns.Reserve(w, s)))
    {
      var m := Step(v, KlogRuns.Reserve(w, s));
      assert Publish(w, 0) == [] && [KlogRuns.Reserve(w, s)][1..] == [];
      assert Runs(m, [], m);
      assert [KlogRuns.Reserve(w, s)] + Publish(w, 0) == [KlogRuns.Reserve(w, s)];
    }

    /** klog_flush_to_screen, over any buffer and with any writers under way. */
    method FlushToScreen()
      requires Valid()
      modifies this`tail, this`output, buf
      ensures Valid() && View() == Flushed(old(View()))
      ensures Settled(old(View())) ==> tail == head && output == Expected(old(View())) && Settled(View())
    {
      ghost var v := View();
      if Settled(v) { FlushSettles(v); }
      hide Holds, Place, Flushed, Settled, Expected, Caught;
      while true
        invariant Valid() && head == old(head) && Flushed(View()) == Flushed(v)
        decreases head - tail
      {
        FlushTurn(View());
        CaughtIs(View());
        CatchUp();
        if tail == head {
          break;
        }
        var pos := Place(tail);
        if !buf[pos].ready {
          break;
        }
        output := output + [buf[pos].c];
        buf[pos] := buf[pos].(ready := false);
        tail := tail + 1;
      }
    }

    /** The head of the loop: what does not fit the buffer is dropped. */
    method CatchUp()
      requires Valid()
      modifies this`tail, this`output
      ensures Valid() && View() == Caught(old(View()))
    {
      var currentHead := head;
      if currentHead - tail > MAX {
        tail := currentHead - MAX;
        output := output + "[drop]";
      }
    }
  }
}
