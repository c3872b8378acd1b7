/** A whole call of klog_flush_to_screen, which runs with interrupts disabled. */
module KlogFlush {
  import opened KlogRuns

  /** First position that is still in the buffer when the reader stands at `tail`. */
  function Oldest(head: nat, tail: nat): nat
    requires tail <= head
  {
    if head - tail > MAX then head - MAX else tail
  }

  /** n loads and stores of the reader. */
  function Reads(m: Klog, n: nat): Klog
    requires |m.buf| == MAX
    decreases n
  {
    if n == 0 then m else Reads(ReadStep(m), n - 1)
  }

  lemma {:induction false} ReadsTwo(m: Klog, a: nat, b: nat)
    requires |m.buf| == MAX
    ensures |Reads(m, a).buf| == MAX && Reads(m, a + b) == Reads(Reads(m, a), b)
    decreases a
  {
    hide ReadStep;
    ReadKeepsSize(m);
    if a > 0 { ReadsTwo(ReadStep(m), a - 1, b); }
  }

  lemma ReadKeepsSize(m: Klog)
    requires |m.buf| == MAX
    ensures |ReadStep(m).buf| == MAX
  {
  }

  /** What the buffer shows for the k positions from `from`. */
  function Shown(buf: seq<Slot>, from: nat, k: nat): (r: string)
    requires |buf| == MAX
    ensures |r| == k && forall i :: 0 <= i < k ==> r[i] == buf[Place(from + i)].c
  {
    seq(k, i requires 0 <= i => buf[Place(from + i)].c)
  }

  ghost predicate Flags(m: Klog)
    requires |m.buf| == MAX
  {
    forall p: nat :: m.tail <= p < m.head ==> m.buf[Place(p)].ready
  }

  /** One turn of the loop prints one character. */
  lemma OneChar(m: Klog)
    requires |m.buf| == MAX && m.reader == Testing && m.tail < m.head <= m.tail + MAX && m.buf[Place(m.tail)].ready
    ensures Reads(m, 7) == m.(buf := m.buf[Place(m.tail) := m.buf[Place(m.tail)].(ready := false)],
                              tail := m.tail + 1, output := m.output + [m.buf[Place(m.tail)].c])
  {
    hide Place;
    var s := m.buf[Place(m.tail)];
    var m1 := m.(reader := Flagging);
    var m2 := m1.(reader := Printing);
    var m3 := m2.(output := m.output + [s.c], reader := Clearing);
    var m4 := m3.(buf := m.buf[Place(m.tail) := s.(ready := false)], reader := Advancing);
    var m5 := m4.(tail := m.tail + 1, reader := Loading);
    var m6 := m5.(reader := Comparing(m.head));
    assert ReadStep(m) == m1 && ReadStep(m1) == m2 && ReadStep(m2) == m3 && ReadStep(m3) == m4;
    assert ReadStep(m4) == m5 && ReadStep(m5) == m6 && ReadStep(m6) == m6.(reader := Testing);
    hide ReadStep;
    assert Reads(m, 7) == Reads(m1, 6) == Reads(m2, 5) == Reads(m3, 4);
    assert Reads(m3, 4) == Reads(m4, 3) == Reads(m5, 2) == Reads(m6, 1) == ReadStep(m6);
  }

  /** With every flag set the loop prints the whole window and stops. */
  lemma {:induction false} DrainAll(m: Klog)
    requires |m.buf| == MAX && m.reader == Testing && m.tail <= m.head <= m.tail + MAX && Flags(m)
    ensures var f := Reads(m, 7 * (m.head - m.tail) + 1);
            && f.reader == Idle && f.tail == f.head == m.head && f.log == m.log
            && f.output == m.output + Shown(m.buf, m.tail, m.head - m.tail)
    decreases m.head - m.tail
  {
    hide Place, Reads, ReadStep, Shown;
    if m.tail == m.head {
      DrainNone(m);
    } else {
      var k := m.head - m.tail;
      OneChar(m);
      ReadsTwo(m, 7, 7 * (k - 1) + 1);
      ShownMore(m, k);
      DrainAll(Reads(m, 7));
      assert 7 + (7 * (k - 1) + 1) == 7 * k + 1;
    }
  }

  lemma DrainNone(m: Klog)
    requires |m.buf| == MAX && m.reader == Testing && m.tail == m.head
    ensures Reads(m, 1) == m.(reader := Idle) && m.output + Shown(m.buf, m.tail, 0) == m.output
  {
    assert Reads(m, 1) == ReadStep(m);
  }

  /** The rest of the window is untouched by printing its first character. */
  lemma ShownMore(m: Klog, k: nat)
    requires |m.buf| == MAX && 0 < k <= MAX && m.head == m.tail + k && Flags(m)
    ensures var c := m.buf[Place(m.tail)].c;
            var b := m.buf[Place(m.tail) := m.buf[Place(m.tail)].(ready := false)];
            && m.output + [c] + Shown(b, m.tail + 1, k - 1) == m.output + Shown(m.buf, m.tail, k)
            && (forall p: nat :: m.tail + 1 <= p < m.head ==> b[Place(p)].ready)
            && m.buf[Place(m.tail)].ready
  {
    hide Place;
    var c := m.buf[Place(m.tail)].c;
    var b := m.buf[Place(m.tail) := m.buf[Place(m.tail)].(ready := false)];
    forall p: nat | m.tail + 1 <= p < m.head
      ensures b[Place(p)] == m.buf[Place(p)]
    {
      PlacesDiffer(m.tail, p);
    }
    assert [c] + Shown(b, m.tail + 1, k - 1) == Shown(m.buf, m.tail, k);
    assert m.output + [c] + Shown(b, m.tail + 1, k - 1) == m.output + ([c] + Shown(b, m.tail + 1, k - 1));
  }

  /** A whole call of klog_flush_to_screen with no writer about. */
  function Flushed(m: Klog): Klog
    requires |m.buf| == MAX && m.tail <= m.head
  {
    Reads(m.(reader := Loading), 7 * (m.head - Oldest(m.head, m.tail)) + 3)
  }

  lemma FlushShows(m: Klog)
    requires |m.buf| == MAX && m.tail <= m.head && forall p: nat :: Oldest(m.head, m.tail) <= p < m.head ==> m.buf[Place(p)].ready
    ensures var f, lo := Flushed(m), Oldest(m.head, m.tail);
            && f.reader == Idle && f.tail == f.head == m.head && f.log == m.log
            && f.output == m.output + (if m.head - m.tail > MAX then "[drop]" else "") + Shown(m.buf, lo, m.head - lo)
  {
    hide Place;
    var lo := Oldest(m.head, m.tail);
    var m0 := m.(reader := Loading);
    var m2 := m0.(tail := lo, output := m.output + (if m.head - m.tail > MAX then "[drop]" else ""), reader := Testing);
    ReadsTwo(m0, 2, 7 * (m.head - lo) + 1);
    assert m.output + "" == m.output;
    assert ReadStep(m0) == m0.(reader := Comparing(m.head)) && ReadStep(ReadStep(m0)) == m2;
    assert Reads(m0, 2) == Reads(ReadStep(m0), 1) == ReadStep(ReadStep(m0));
    DrainAll(m2);
  }

  /** The window shows the log exactly if each of its slots shows its own character. */
  lemma ShownIsLog(m: Klog, from: nat)
    requires |m.buf| == MAX && from <= m.head == |m.log|
    ensures Shown(m.buf, from, m.head - from) == m.log[from..] <==> forall p: nat :: from <= p < m.head ==> m.buf[Place(p)].c == m.log[p]
  {
    hide Place;
    var r := Shown(m.buf, from, m.head - from);
    if r == m.log[from..] {
      forall p: nat | from <= p < m.head
        ensures m.buf[Place(p)].c == m.log[p]
      {
        assert r[p - from] == m.log[from..][p - from];
      }
    }
  }

  lemma SameEnd(a: string, b: string, c: string)
    requires |b| == |c|
    ensures a + b == a + c <==> b == c
  {
    assert (a + b)[|a|..] == b && (a + c)[|a|..] == c;
  }

  // ---------- one turn of the loop ----------

  lemma {:induction false} IdleStays(m: Klog, n: nat)
    requires |m.buf| == MAX && m.reader == Idle
    ensures Reads(m, n) == m
    decreases n
  {
    if n > 0 { IdleStays(m, n - 1); }
  }

  /** What the head of the loop does: the drop, if more than a buffer is unread. */
  function Caught(m: Klog): Klog
    requires m.tail <= m.head
  {
    if m.head - m.tail > MAX then m.(tail := m.head - MAX, output := m.output + "[drop]") else m
  }

  /** A turn ends the flush at the end of the log or at a flag that is not set; otherwise it prints one character. */
  lemma FlushTurn(m: Klog)
    requires |m.buf| == MAX && m.tail <= m.head && m.reader == Idle
    ensures var c := Caught(m);
            Flushed(m) ==
              if c.tail == c.head || !m.buf[Place(c.tail)].ready then c
              else Flushed(c.(buf := m.buf[Place(c.tail) := m.buf[Place(c.tail)].(ready := false)],
                              tail := c.tail + 1, output := c.output + [m.buf[Place(c.tail)].c]))
  {
    hide Place;
    var c, k := Caught(m), m.head - Oldest(m.head, m.tail);
    var m0, t := m.(reader := Loading), c.(reader := Testing);
    ReadsTwo(m0, 2, 7 * k + 1);
    assert ReadStep(m0) == m0.(reader := Comparing(m.head)) && ReadStep(ReadStep(m0)) == t;
    assert Reads(m0, 2) == Reads(ReadStep(m0), 1) == ReadStep(ReadStep(m0));
    TurnFromTesting(t, k);
  }

  lemma TurnFromTesting(t: Klog, k: nat)
    requires |t.buf| == MAX && t.reader == Testing && t.tail <= t.head <= t.tail + MAX && k == t.head - t.tail
    ensures Reads(t, 7 * k + 1) ==
              if k == 0 || !t.buf[Place(t.tail)].ready then t.(reader := Idle)
              else Flushed(t.(buf := t.buf[Place(t.tail) := t.buf[Place(t.tail)].(ready := false)],
                              tail := t.tail + 1, output := t.output + [t.buf[Place(t.tail)].c], reader := Idle))
  {
    hide Place, Reads;
    if k == 0 {
      OneRead(t);
    } else if !t.buf[Place(t.tail)].ready {
      StopsEarly(t, 7 * k - 1);
    } else {
      OneChar(t);
      ReadsTwo(t, 7, 7 * (k - 1) + 1);
      var n := Reads(t, 7);
      var l := n.(reader := Loading);
      ReadsTwo(l, 2, 7 * (k - 1) + 1);
      TwoReads(l);
    }
  }

  lemma OneRead(t: Klog)
    requires |t.buf| == MAX
    ensures Reads(t, 1) == ReadStep(t)
  {
  }

  lemma TwoReads(l: Klog)
    requires |l.buf| == MAX && l.reader == Loading && l.tail <= l.head <= l.tail + MAX
    ensures Reads(l, 2) == l.(reader := Testing)
  {
    assert ReadStep(l) == l.(reader := Comparing(l.head)) && ReadStep(ReadStep(l)) == l.(reader := Testing);
    assert Reads(l, 2) == Reads(ReadStep(l), 1) == ReadStep(ReadStep(l));
  }

  lemma StopsEarly(t: Klog, n: nat)
    requires |t.buf| == MAX && t.reader == Testing && t.tail != t.head && !t.buf[Place(t.tail)].ready
    ensures Reads(t, n + 2) == t.(reader := Idle)
  {
    assert ReadStep(t) == t.(reader := Flagging) && ReadStep(ReadStep(t)) == t.(reader := Idle);
    assert Reads(t, n + 2) == Reads(ReadStep(t), n + 1) == Reads(ReadStep(ReadStep(t)), n);
    IdleStays(t.(reader := Idle), n);
  }
}
