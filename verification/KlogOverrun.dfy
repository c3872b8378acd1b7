/** The log over runs of any length: overlapping writers, any number of flushes, any number of overruns. */
module KlogOverrun {
  import opened KlogRuns
  import opened KlogFlush

  /** A run on one processor: a flush holds interrupts off, so no writer takes a step while it is under way. */
  ghost predicate Runs(m: Klog, ops: seq<Op>, m': Klog)
    decreases |ops|
  {
    if ops == [] then m' == m else CanStep(m, ops[0]) && Runs(Step(m, ops[0]), ops[1..], m')
  }

  ghost predicate CanStep(m: Klog, op: Op) {
    Legal(m, op) && (op.Read? || m.reader == Idle)
  }

  /** A whole flush is a run of its loads and stores. */
  lemma FlushIsRun(m: Klog) returns (ops: seq<Op>)
    requires Legal(m, Flush) && m.tail <= m.head
    ensures Runs(m, ops, Flushed(m)) && Reserved(ops) == ""
  {
    var m1 := Step(m, Flush);
    var rest := ReadsAreRun(m1, 7 * (m.head - Oldest(m.head, m.tail)) + 3);
    ops := [Flush] + rest;
    assert ops[1..] == rest;
  }

  lemma {:induction false} ReadsAreRun(m: Klog, n: nat) returns (ops: seq<Op>)
    requires |m.buf| == MAX && forall w :: w in m.writers ==> m.writers[w].done < |m.writers[w].text|
    ensures Runs(m, ops, Reads(m, n)) && Reserved(ops) == ""
    decreases n
  {
    if n == 0 || m.reader == Idle {
      IdleOrNone(m, n);
      ops := [];
    } else {
      var rest := ReadsAreRun(ReadStep(m), n - 1);
      ops := [Read] + rest;
      assert ops[1..] == rest;
    }
  }

  lemma IdleOrNone(m: Klog, n: nat)
    requires |m.buf| == MAX && (n == 0 || m.reader == Idle)
    ensures Reads(m, n) == m
  {
    if n > 0 { IdleStays(m, n); }
  }

  // ---------- what every run keeps ----------

  ghost predicate Done(m: Klog, p: nat) { p < m.head && !Pending(m, p) }

  ghost predicate WriterFits(m: Klog, w: Writer) {
    && w.done < |w.text| && w.start + |w.text| <= m.head == |m.log|
    && m.log[w.start..w.start + |w.text|] == w.text
    && (w.half ==> Place(Next(w)) in m.last)
  }

  /** A slot holds the character of the position stored in it last. */
  ghost predicate SlotTells(m: Klog, q: nat)
    requires q < MAX && |m.buf| == MAX
  {
    q in m.last ==> m.last[q] < m.head && m.last[q] < |m.log| && Place(m.last[q]) == q && m.buf[q].c == m.log[m.last[q]]
  }

  /** A published position has been stored, and its flag is set while it is unread. */
  ghost predicate Stored(m: Klog, p: nat)
    requires |m.buf| == MAX
  {
    Done(m, p) ==>
      && Place(p) in m.last
      && (m.tail <= p && !(p == m.tail && m.reader == Advancing) ==> m.buf[Place(p)].ready)
  }

  /** Past its first test a flush has at most a buffer full ahead. */
  ghost predicate ReaderFits(m: Klog) {
    && m.tail <= m.head
    && (m.reader.Comparing? ==> m.reader.head == m.head)
    && (m.reader == Idle || m.reader == Loading || m.reader.Comparing? || m.head <= m.tail + MAX)
    && (m.reader == Flagging || m.reader == Printing || m.reader == Clearing || m.reader == Advancing ==> m.tail < m.head)
  }

  ghost predicate RunInv(m: Klog) {
    && |m.buf| == MAX && m.head == |m.log| && ReaderFits(m) && WritersApart(m)
    && (forall w :: w in m.writers ==> WriterFits(m, m.writers[w]))
    && (forall q: nat :: q < MAX ==> SlotTells(m, q))
    && (forall p: nat :: Stored(m, p))
  }

  lemma FreshRunInv(m: Klog)
    requires Fresh(m)
    ensures RunInv(m)
  {
  }

  lemma FitsAt(m: Klog, w: nat)
    requires RunInv(m) && w in m.writers
    ensures WriterFits(m, m.writers[w]) && WritersApart(m) && |m.buf| == MAX
    ensures var p := Next(m.writers[w]);
            p < m.head && Covers(m.writers[w], p) && Pending(m, p) && m.log[p] == m.writers[w].text[m.writers[w].done]
  {
    hide Place;
    var wr := m.writers[w];
    assert WriterFits(m, wr);
    assert m.log[wr.start..wr.start + |wr.text|][wr.done] == wr.text[wr.done];
    assert Covers(wr, Next(wr));
  }

  // ---------- each step keeps it ----------

  lemma ReserveDone(m: Klog, w: nat, s: string, p: nat)
    requires RunInv(m) && Legal(m, Reserve(w, s))
    ensures Done(Step(m, Reserve(w, s)), p) <==> Done(m, p)
  {
    hide Place, Truncated, SlotTells, Stored, ReaderFits;
    var m' := Step(m, Reserve(w, s));
    if Pending(m, p) {
      var v :| v in m.writers && Covers(m.writers[v], p);
      assert v in m'.writers && Covers(m'.writers[v], p);
    }
    if m.head <= p < m'.head { assert Covers(m'.writers[w], p); }
    if p < m.head && Pending(m', p) {
      var v :| v in m'.writers && Covers(m'.writers[v], p);
      assert v in m.writers && Covers(m.writers[v], p);
    }
  }

  lemma ReserveStaysApart(m: Klog, w: nat, s: string)
    requires RunInv(m) && Legal(m, Reserve(w, s))
    ensures WritersApart(Step(m, Reserve(w, s)))
  {
    hide Place, Truncated, SlotTells, Stored, ReaderFits;
    var m' := Step(m, Reserve(w, s));
    forall v, v', p: nat | v in m'.writers && v' in m'.writers && v != v'
      ensures !(Covers(m'.writers[v], p) && Covers(m'.writers[v'], p))
    {
      if v != w { assert WriterFits(m, m.writers[v]); }
      if v' != w { assert WriterFits(m, m.writers[v']); }
    }
  }

  lemma ReserveRuns(m: Klog, w: nat, s: string)
    requires RunInv(m) && Legal(m, Reserve(w, s)) && m.reader == Idle
    ensures RunInv(Step(m, Reserve(w, s)))
  {
    hide Place, Truncated, Covers, Done, WritersApart;
    var m' := Step(m, Reserve(w, s));
    TruncatedLength(s);
    forall p: nat
      ensures Stored(m', p)
    {
      ReserveDone(m, w, s, p);
      assert Stored(m, p);
    }
    forall q: nat | q < MAX
      ensures SlotTells(m', q)
    {
      assert SlotTells(m, q);
    }
    forall v | v in m'.writers
      ensures WriterFits(m', m'.writers[v])
    {
      if v != w { assert WriterFits(m, m.writers[v]); }
    }
    ReserveStaysApart(m, w, s);
  }

  lemma PutCharRuns(m: Klog, w: nat)
    requires RunInv(m) && Legal(m, PutChar(w))
    ensures RunInv(Step(m, PutChar(w)))
  {
    hide Place, Covers, Pending, WritersApart, SlotTells, Stored, WriterFits;
    var m' := Step(m, PutChar(w));
    forall q: nat | q < MAX
      ensures SlotTells(m', q)
    {
      PutCharSlot(m, w, q);
    }
    forall p: nat
      ensures Stored(m', p)
    {
      PutCharStored(m, w, p);
    }
    forall v | v in m'.writers
      ensures WriterFits(m', m'.writers[v])
    {
      PutCharFits(m, w, v);
    }
    FurtherApart(m, m');
  }

  lemma PutCharSlot(m: Klog, w: nat, q: nat)
    requires RunInv(m) && Legal(m, PutChar(w)) && q < MAX
    ensures SlotTells(Step(m, PutChar(w)), q)
  {
    hide Place, Covers, Pending, WritersApart, WriterFits, Stored;
    FitsAt(m, w);
    assert SlotTells(m, q);
  }

  lemma PutCharStored(m: Klog, w: nat, p: nat)
    requires RunInv(m) && Legal(m, PutChar(w))
    ensures Stored(Step(m, PutChar(w)), p)
  {
    hide Place, Covers, Pending, WritersApart, SlotTells, WriterFits;
    SamePending(m, Step(m, PutChar(w)), p);
    assert Stored(m, p);
  }

  lemma PutCharFits(m: Klog, w: nat, v: nat)
    requires RunInv(m) && Legal(m, PutChar(w)) && v in m.writers
    ensures v in Step(m, PutChar(w)).writers && WriterFits(Step(m, PutChar(w)), Step(m, PutChar(w)).writers[v])
  {
    hide Place, RunInv;
    FitsAt(m, v);
  }

  /** Publishing a position takes exactly it off the pending ones. */
  lemma PutReadyDone(m: Klog, w: nat, p: nat)
    requires RunInv(m) && Legal(m, PutReady(w))
    ensures Pending(Step(m, PutReady(w)), p) <==> Pending(m, p) && p != Next(m.writers[w])
  {
    hide RunInv, WritersApart, Place;
    var m' := Step(m, PutReady(w));
    var p0 := Next(m.writers[w]);
    FitsAt(m, w);
    if Pending(m, p) && p != p0 {
      var v :| v in m.writers && Covers(m.writers[v], p);
      assert v in m'.writers && Covers(m'.writers[v], p);
    }
    if Pending(m', p) {
      var v :| v in m'.writers && Covers(m'.writers[v], p);
      assert Covers(m.writers[v], p);
      if v != w { ApartAt(m, v, w, p); }
    }
  }

  lemma PutReadyRuns(m: Klog, w: nat)
    requires RunInv(m) && Legal(m, PutReady(w))
    ensures RunInv(Step(m, PutReady(w)))
  {
    hide Place, Covers, Pending, WritersApart, SlotTells, Stored, WriterFits;
    var m' := Step(m, PutReady(w));
    forall q: nat | q < MAX
      ensures SlotTells(m', q)
    {
      assert SlotTells(m, q);
      SlotKept(m, m', q);
    }
    forall p: nat
      ensures Stored(m', p)
    {
      PutReadyStored(m, w, p);
    }
    forall v | v in m'.writers
      ensures WriterFits(m', m'.writers[v])
    {
      PutReadyFits(m, w, v);
    }
    FurtherApart(m, m');
  }

  lemma SlotKept(m: Klog, m': Klog, q: nat)
    requires q < MAX && |m.buf| == |m'.buf| == MAX && SlotTells(m, q)
    requires m'.last == m.last && m'.log == m.log && m'.head == m.head && m'.buf[q].c == m.buf[q].c
    ensures SlotTells(m', q)
  {
  }

  lemma PutReadyStored(m: Klog, w: nat, p: nat)
    requires RunInv(m) && Legal(m, PutReady(w))
    ensures Stored(Step(m, PutReady(w)), p)
  {
    hide Place, Covers, Pending, WritersApart, SlotTells;
    FitsAt(m, w);
    PutReadyDone(m, w, p);
    assert Stored(m, p);
  }

  lemma PutReadyFits(m: Klog, w: nat, v: nat)
    requires RunInv(m) && Legal(m, PutReady(w)) && v in Step(m, PutReady(w)).writers
    ensures WriterFits(Step(m, PutReady(w)), Step(m, PutReady(w)).writers[v])
  {
    hide Place, RunInv;
    FitsAt(m, v);
  }

  /** A flush moves the tail and clears flags of positions it has printed. */
  lemma ReadRuns(m: Klog)
    requires RunInv(m) && Legal(m, Read)
    ensures RunInv(Step(m, Read))
  {
    hide Place, Covers, Pending, WritersApart, SlotTells, Stored, WriterFits;
    var m' := Step(m, Read);
    forall q: nat | q < MAX
      ensures SlotTells(m', q)
    {
      assert SlotTells(m, q);
      SlotKept(m, m', q);
    }
    forall p: nat
      ensures Stored(m', p)
    {
      ReadStored(m, p);
    }
    forall v | v in m'.writers
      ensures WriterFits(m', m'.writers[v])
    {
      assert WriterFits(m, m.writers[v]);
      FitsKept(m, m', m.writers[v]);
    }
    FurtherApart(m, m');
  }

  lemma FitsKept(m: Klog, m': Klog, w: Writer)
    requires WriterFits(m, w) && m'.head == m.head && m'.log == m.log && m'.last == m.last
    ensures WriterFits(m', w)
  {
  }

  lemma ReadStored(m: Klog, p: nat)
    requires RunInv(m) && Legal(m, Read)
    ensures Stored(Step(m, Read), p)
  {
    hide Place, Covers, Pending, WritersApart, SlotTells, WriterFits;
    SamePending(m, Step(m, Read), p);
    assert Stored(m, p);
    if m.reader == Clearing && m.tail < p < m.head { PlacesDiffer(m.tail, p); }
  }

  lemma FlushRuns(m: Klog)
    requires RunInv(m) && Legal(m, Flush)
    ensures RunInv(Step(m, Flush))
  {
    hide Place, Covers, Pending, WritersApart, SlotTells, Stored, WriterFits;
    var m' := Step(m, Flush);
    forall q: nat | q < MAX
      ensures SlotTells(m', q)
    {
      assert SlotTells(m, q);
      SlotKept(m, m', q);
    }
    forall p: nat
      ensures Stored(m', p)
    {
      FlushStored(m, p);
    }
    forall v | v in m'.writers
      ensures WriterFits(m', m'.writers[v])
    {
      assert WriterFits(m, m.writers[v]);
      FitsKept(m, m', m.writers[v]);
    }
    FurtherApart(m, m');
  }

  lemma FlushStored(m: Klog, p: nat)
    requires RunInv(m) && Legal(m, Flush)
    ensures Stored(Step(m, Flush), p)
  {
    hide Place, Covers, Pending, WritersApart, SlotTells, WriterFits;
    SamePending(m, Step(m, Flush), p);
    assert Stored(m, p);
  }

  lemma StepRuns(m: Klog, op: Op)
    requires RunInv(m) && CanStep(m, op)
    ensures RunInv(Step(m, op)) && Step(m, op).log == m.log + ReservedIn(op)
  {
    StepReserves(m, op);
    hide RunInv;
    match op
    case Reserve(w, s) => ReserveRuns(m, w, s);
    case PutChar(w) => PutCharRuns(m, w);
    case PutReady(w) => PutReadyRuns(m, w);
    case Flush => FlushRuns(m);
    case Read => ReadRuns(m);
  }

  lemma {:induction false} RunKeepsInv(m: Klog, ops: seq<Op>, m': Klog)
    requires RunInv(m) && Runs(m, ops, m')
    ensures RunInv(m') && m'.log == m.log + Reserved(ops)
    decreases |ops|
  {
    hide RunInv, Legal;
    if ops != [] {
      StepRuns(m, ops[0]);
      RunKeepsInv(Step(m, ops[0]), ops[1..], m');
      assert Reserved(ops) == ReservedIn(ops[0]) + Reserved(ops[1..]);
    } else {
      assert Reserved(ops) == "";
    }
  }

  // ---------- at rest ----------

  /** No writer and no flush is under way. */
  predicate AtRest(m: Klog) { m.writers == map[] && m.reader == Idle }

  /** The character stored last in the slot of position p is p's own. */
  ghost predicate LastIs(m: Klog, p: nat)
    requires p < |m.log|
  {
    Place(p) in m.last && m.last[Place(p)] < |m.log| && m.log[m.last[Place(p)]] == m.log[p]
  }

  /** The unread characters that are still in the buffer. */
  function Newest(m: Klog): string
    requires m.tail <= m.head == |m.log|
  {
    m.log[Oldest(m.head, m.tail)..]
  }

  ghost predicate OwnLast(m: Klog)
    requires m.tail <= m.head == |m.log|
  {
    forall p: nat :: Oldest(m.head, m.tail) <= p < m.head ==> LastIs(m, p)
  }

  /** What a flush at rest is to print. */
  function Expected(m: Klog): string
    requires m.tail <= m.head == |m.log|
  {
    m.output + (if m.head - m.tail > MAX then "[drop]" else "") + Newest(m)
  }

  lemma SlotAtRest(m: Klog, p: nat)
    requires RunInv(m) && AtRest(m) && m.tail <= p < m.head
    ensures m.buf[Place(p)].ready
    ensures m.buf[Place(p)].c == m.log[p] <==> LastIs(m, p)
  {
    hide Place;
    assert Stored(m, p) && Done(m, p);
    assert SlotTells(m, Place(p));
  }

  lemma Shape(m: Klog)
    requires RunInv(m)
    ensures |m.buf| == MAX && m.tail <= m.head == |m.log|
  {
  }

  /** In every state at rest, whatever writers and flushes came before: the next flush prints exactly the newest unread
      characters, after the drop mark if there are more than 4096, if and only if the character stored last in each of
      their slots is theirs. */
  lemma FlushAtRestIff(m0: Klog, ops: seq<Op>, m: Klog)
    requires Fresh(m0) && Runs(m0, ops, m) && AtRest(m)
    ensures |m.buf| == MAX && m.tail <= m.head == |m.log| && m.log == Reserved(ops)
    ensures Short(ops) ==> m.log == Passed(ops)
    ensures Flushed(m).reader == Idle && Flushed(m).tail == m.head
    ensures Flushed(m).output == Expected(m) <==> OwnLast(m)
  {
    hide RunInv, Runs, Reserved, Flushed, OwnLast;
    FreshRunInv(m0);
    RunKeepsInv(m0, ops, m);
    if Short(ops) { LoggedWhole(ops); }
    assert "" + Reserved(ops) == Reserved(ops);
    RestIff(m);
  }

  lemma RestIff(m: Klog)
    requires RunInv(m) && AtRest(m)
    ensures |m.buf| == MAX && m.tail <= m.head == |m.log|
    ensures Flushed(m).reader == Idle && Flushed(m).tail == m.head
    ensures Flushed(m).output == Expected(m) <==> OwnLast(m)
  {
    hide RunInv, Place, Flushed, Shown, LastIs;
    Shape(m);
    var lo := Oldest(m.head, m.tail);
    forall p: nat | lo <= p < m.head
      ensures m.buf[Place(p)].ready
      ensures m.buf[Place(p)].c == m.log[p] <==> LastIs(m, p)
    {
      SlotAtRest(m, p);
    }
    FlushShows(m);
    ShownIsLog(m, lo);
    SameEnd(m.output + (if m.head - m.tail > MAX then "[drop]" else ""), Shown(m.buf, lo, m.head - lo), m.log[lo..]);
  }

  /** The flush after any overrun, the first or a later one, prints the drop mark and exactly the newest 4096 characters if
      and only if the character stored last in each slot is that of the newest position. */
  lemma OverrunFlushIff(m0: Klog, ops: seq<Op>, m: Klog)
    requires Fresh(m0) && Runs(m0, ops, m) && AtRest(m) && m.head - m.tail > MAX
    ensures |m.buf| == MAX && m.tail <= m.head == |m.log|
    ensures Flushed(m).output == m.output + "[drop]" + m.log[m.head - MAX..] <==>
            forall p: nat :: m.head - MAX <= p < m.head ==> LastIs(m, p)
  {
    hide Runs, Flushed, LastIs;
    FlushAtRestIff(m0, ops, m);
  }

  // ---------- when the newest characters stay ----------

  /** A character is stored only while none of a later position has been stored in its slot. */
  ghost predicate InTime(m: Klog, op: Op)
    requires Legal(m, op)
  {
    op.PutChar? ==> var p := Next(m.writers[op.w]); Place(p) in m.last ==> m.last[Place(p)] <= p
  }

  /** A store less than a buffer behind the head is in time. */
  lemma RecentInTime(m: Klog, w: nat)
    requires RunInv(m) && Legal(m, PutChar(w)) && m.head <= Next(m.writers[w]) + MAX
    ensures InTime(m, PutChar(w))
  {
    hide Place;
    var p := Next(m.writers[w]);
    assert SlotTells(m, Place(p));
    if Place(p) in m.last && p < m.last[Place(p)] { PlacesDiffer(p, m.last[Place(p)]); }
  }

  ghost predicate TimelyRuns(m: Klog, ops: seq<Op>, m': Klog)
    decreases |ops|
  {
    if ops == [] then m' == m
    else CanStep(m, ops[0]) && InTime(m, ops[0]) && TimelyRuns(Step(m, ops[0]), ops[1..], m')
  }

  /** The slot of position p was stored last by p or a later position. */
  ghost predicate NotBefore(m: Klog, p: nat) { Place(p) in m.last && p <= m.last[Place(p)] }

  ghost predicate Timely(m: Klog) {
    && (forall p: nat :: Done(m, p) ==> NotBefore(m, p))
    && (forall w :: w in m.writers && m.writers[w].half ==> NotBefore(m, Next(m.writers[w])))
  }

  lemma StepTimely(m: Klog, op: Op)
    requires RunInv(m) && Timely(m) && CanStep(m, op) && InTime(m, op)
    ensures Timely(Step(m, op))
  {
    hide Place, RunInv, Covers, Pending;
    var m' := Step(m, op);
    forall p: nat | Done(m', p)
      ensures NotBefore(m', p)
    {
      DoneBefore(m, op, p);
      if op.PutReady? && p == Next(m.writers[op.w]) { assert NotBefore(m, p); }
    }
    forall w | w in m'.writers && m'.writers[w].half
      ensures NotBefore(m', Next(m'.writers[w]))
    {
      if op.PutChar? && w == op.w { assert Next(m'.writers[w]) == Next(m.writers[w]); }
    }
  }

  lemma DoneBefore(m: Klog, op: Op, p: nat)
    requires RunInv(m) && Legal(m, op) && Done(Step(m, op), p)
    ensures Done(m, p) || (op.PutReady? && p == Next(m.writers[op.w]))
  {
    hide Place, Covers, Pending, RunInv;
    match op
    case Reserve(w, s) => ReserveDone(m, w, s, p);
    case PutChar(w) => SamePending(m, Step(m, op), p);
    case PutReady(w) => PutReadyDone(m, w, p);
    case Flush => SamePending(m, Step(m, op), p);
    case Read => SamePending(m, Step(m, op), p);
  }

  lemma {:induction false} RunTimely(m: Klog, ops: seq<Op>, m': Klog)
    requires RunInv(m) && Timely(m) && TimelyRuns(m, ops, m')
    ensures RunInv(m') && Timely(m') && Runs(m, ops, m')
    decreases |ops|
  {
    hide RunInv, Timely, Legal, InTime;
    if ops != [] {
      StepRuns(m, ops[0]);
      StepTimely(m, ops[0]);
      RunTimely(Step(m, ops[0]), ops[1..], m');
    }
  }

  /** However writers overlap, however much they write and however often the log was flushed or overrun: if every store was in
      time, a flush at rest prints exactly the newest unread characters, after the drop mark if there are more than 4096. */
  lemma TimelyFlush(m0: Klog, ops: seq<Op>, m: Klog)
    requires Fresh(m0) && TimelyRuns(m0, ops, m) && AtRest(m)
    ensures |m.buf| == MAX && m.tail <= m.head == |m.log| && Flushed(m).output == Expected(m)
  {
    hide RunInv, Flushed, Place, LastIs, Pending;
    FreshRunInv(m0);
    assert Timely(m0);
    RunTimely(m0, ops, m);
    RestIff(m);
    forall p: nat | Oldest(m.head, m.tail) <= p < m.head
      ensures LastIs(m, p)
    {
      NewestIsLast(m, p);
    }
  }

  lemma NewestIsLast(m: Klog, p: nat)
    requires RunInv(m) && Timely(m) && AtRest(m) && p < m.head <= p + MAX
    ensures p < |m.log| && LastIs(m, p)
  {
    hide Place;
    assert Done(m, p);
    assert SlotTells(m, Place(p));
    if p < m.last[Place(p)] { PlacesDiffer(p, m.last[Place(p)]); }
  }

  /** Positions that share a slot have different characters. */
  ghost predicate TellApart(m: Klog) {
    forall p: nat, q: nat :: p < q < |m.log| && Place(p) == Place(q) ==> m.log[p] != m.log[q]
  }

  /** The converse: where characters tell positions apart, a flush at rest prints the newest unread characters only if each of
      them was the last one stored in its slot. */
  lemma NewestLastIff(m0: Klog, ops: seq<Op>, m: Klog)
    requires Fresh(m0) && Runs(m0, ops, m) && AtRest(m) && TellApart(m)
    ensures |m.buf| == MAX && m.tail <= m.head == |m.log|
    ensures Flushed(m).output == Expected(m) <==>
            forall p: nat :: Oldest(m.head, m.tail) <= p < m.head ==> Place(p) in m.last && m.last[Place(p)] == p
  {
    hide RunInv, Runs, Flushed, Place, LastIs, TellApart;
    FreshRunInv(m0);
    RunKeepsInv(m0, ops, m);
    RestIff(m);
    forall p: nat | Oldest(m.head, m.tail) <= p < m.head
      ensures LastIs(m, p) <==> Place(p) in m.last && m.last[Place(p)] == p
    {
      LastMeansOwn(m, p);
    }
  }

  lemma LastMeansOwn(m: Klog, p: nat)
    requires RunInv(m) && TellApart(m) && p < m.head == |m.log|
    ensures LastIs(m, p) <==> Place(p) in m.last && m.last[Place(p)] == p
  {
    hide Place;
    assert SlotTells(m, Place(p));
  }

  // ---------- a late store ----------

  /** The stores that publish n characters. */
  function Publish(w: nat, n: nat): seq<Op> {
    if n == 0 then [] else [PutChar(w), PutReady(w)] + Publish(w, n - 1)
  }

  lemma {:induction false} RunsTwo(m: Klog, a: seq<Op>, m1: Klog, b: seq<Op>, m2: Klog)
    requires Runs(m, a, m1) && Runs(m1, b, m2)
    ensures Runs(m, a + b, m2)
    decreases |a|
  {
    hide Legal;
    if a == [] {
      assert a + b == b;
    } else {
      assert (a + b)[1..] == a[1..] + b;
      RunsTwo(Step(m, a[0]), a[1..], m1, b, m2);
    }
  }

  /** The writers and positions of a state from which `w` can go on. */
  ghost predicate Ready(m: Klog, w: nat, n: nat) {
    && |m.buf| == MAX && m.reader == Idle && w in m.writers && !m.writers[w].half && m.writers[w].done + n == |m.writers[w].text|
    && forall v :: v in m.writers ==> m.writers[v].done < |m.writers[v].text|
  }

  /** A writer that has n characters left can publish them all. */
  lemma {:induction false} PublishAll(m: Klog, w: nat, n: nat) returns (m': Klog)
    requires Ready(m, w, n)
    ensures Runs(m, Publish(w, n), m') && m'.writers == m.writers - {w} && |m'.buf| == MAX
    ensures m'.head == m.head && m'.tail == m.tail && m'.log == m.log && m'.reader == m.reader && m'.output == m.output
    decreases n
  {
    hide Legal, Place, Step;
    var m1, m2 := PublishOne(m, w, n);
    if n == 1 {
      m' := m2;
      assert Publish(w, 0) == [];
      assert Runs(m2, [], m');
    } else {
      m' := PublishAll(m2, w, n - 1);
    }
    assert Publish(w, n) == [PutChar(w), PutReady(w)] + Publish(w, n - 1);
    RunsTwo(m, [PutChar(w), PutReady(w)], m2, Publish(w, n - 1), m');
  }

  lemma PublishOne(m: Klog, w: nat, n: nat) returns (m1: Klog, m2: Klog)
    requires Ready(m, w, n) && 0 < n
    ensures Legal(m, PutChar(w)) && m1 == Step(m, PutChar(w)) && Legal(m1, PutReady(w)) && m2 == Step(m1, PutReady(w))
    ensures Runs(m, [PutChar(w), PutReady(w)], m2)
    ensures if n == 1 then m2.writers == m.writers - {w} else Ready(m2, w, n - 1) && m2.writers - {w} == m.writers - {w}
    ensures |m2.buf| == MAX && m2.head == m.head && m2.tail == m.tail && m2.log == m.log && m2.reader == m.reader && m2.output == m.output
    ensures m2.last == m.last[Place(Next(m.writers[w])) := Next(m.writers[w])]
  {
    hide Place;
    m1 := Step(m, PutChar(w));
    m2 := Step(m1, PutReady(w));
    assert [PutChar(w), PutReady(w)][1..] == [PutReady(w)] && [PutReady(w)][1..] == [];
    assert Runs(m2, [], m2);
    assert Runs(m1, [PutReady(w)], m2);
  }

  /** Writer 0 reserves one position; writer 1 reserves and publishes a buffer full; then writer 0 stores its character. */
  function LateStore(s: string): seq<Op> {
    [Reserve(0, "a"), Reserve(1, s)] + Publish(1, MAX) + Publish(0, 1)
  }

  /** All writers are done, and the flush does not print the newest 4096 characters: the last of them was overwritten. */
  lemma LateStoreLosesCharacter(m0: Klog, s: string) returns (m: Klog)
    requires Fresh(m0) && |s| == MAX && s[MAX - 1] != 'a'
    ensures Runs(m0, LateStore(s), m) && AtRest(m) && m.head == MAX + 1 && m.log == "a" + s
    ensures |m.buf| == MAX && m.tail <= m.head && Flushed(m).output != "[drop]" + s
  {
    hide Place, Runs, Fresh, Flushed, Publish;
    var m2 := BothReserve(m0, s);
    var m3 := PublishAll(m2, 1, MAX);
    assert m3.writers == map[0 := Writer(0, "a", 0, false)];
    var m4;
    m4, m := PublishOne(m3, 0, 1);
    PublishOnce();
    RunsTwo(m0, [Reserve(0, "a"), Reserve(1, s)], m2, Publish(1, MAX), m3);
    RunsTwo(m0, [Reserve(0, "a"), Reserve(1, s)] + Publish(1, MAX), m3, Publish(0, 1), m);
    FreshTail(m0);
    assert m.last[Place(0)] == 0;
    LateStoreLast(m0, s, m);
  }

  lemma PublishOnce()
    ensures Publish(0, 1) == [PutChar(0), PutReady(0)]
  {
    assert Publish(0, 0) == [];
  }

  lemma BothReserve(m0: Klog, s: string) returns (m2: Klog)
    requires Fresh(m0) && |s| == MAX
    ensures Runs(m0, [Reserve(0, "a"), Reserve(1, s)], m2)
    ensures m2.writers == map[0 := Writer(0, "a", 0, false), 1 := Writer(1, s, 0, false)]
    ensures |m2.buf| == MAX && m2.head == MAX + 1 && m2.tail == 0 && m2.log == "a" + s && m2.reader == Idle && m2.output == ""
  {
    assert Truncated("a") == "a" && Truncated(s) == s;
    var m1 := Step(m0, Reserve(0, "a"));
    m2 := Step(m1, Reserve(1, s));
    assert "" + "a" == "a";
    assert [Reserve(0, "a"), Reserve(1, s)][1..] == [Reserve(1, s)] && [Reserve(1, s)][1..] == [];
    assert Runs(m2, [], m2);
    assert Runs(m1, [Reserve(1, s)], m2);
  }

  lemma FreshTail(m: Klog)
    requires Fresh(m)
    ensures m.tail == 0 && m.output == "" && m.reader == Idle
  {
  }

  /** Slot 0 shows position 0 although position 4096 is the newest there. */
  lemma LateStoreLast(m0: Klog, s: string, m: Klog)
    requires Fresh(m0) && Runs(m0, LateStore(s), m) && |s| == MAX && s[MAX - 1] != 'a'
    requires AtRest(m) && m.head == MAX + 1 && m.tail == 0 && m.log == "a" + s && m.output == "" && Place(0) in m.last && m.last[Place(0)] == 0
    ensures |m.buf| == MAX && Flushed(m).output != "[drop]" + s
  {
    hide Runs, Flushed, LastIs, LateStore, Fresh;
    OverrunFlushIff(m0, LateStore(s), m);
    Overwritten(m, s);
    assert m.log[m.head - MAX..] == s;
    assert "" + "[drop]" + s == "[drop]" + s;
  }

  lemma Overwritten(m: Klog, s: string)
    requires m.log == "a" + s && |s| == MAX && s[MAX - 1] != 'a' && Place(0) in m.last && m.last[Place(0)] == 0
    ensures |m.log| == MAX + 1 && !LastIs(m, MAX)
  {
    assert Place(MAX) == Place(0) && m.log[MAX] == s[MAX - 1] && m.log[0] == 'a';
  }
}
