/** The kernel log as a machine: writers and the reader interleaved at every store and load. */
module KlogRuns {

  const MAX: nat := 4096 // KLOG_BUF_MAX

  datatype Slot = Slot(c: char, ready: bool)

  /** A call of klog_write under way: the positions it reserved start at `start`; `done` characters are published, and
      `half` tells whether the next one is stored without its flag. */
  datatype Writer = Writer(start: nat, text: string, done: nat, half: bool)

  /** Where klog_flush_to_screen stands: about to load the head, to compare with the loaded head, to test for an empty log, to
      test the flag, to print, to clear the flag, to advance the tail. */
  datatype Reader = Idle | Loading | Comparing(head: nat) | Testing | Flagging | Printing | Clearing | Advancing

  /** `log` is everything reserved so far, in reservation order; `last` tells for each slot the position whose character
      was stored in it last. */
  datatype Klog = Klog(buf: seq<Slot>, head: nat, tail: nat, writers: map<nat, Writer>, reader: Reader, output: string, log: string, last: map<nat, nat>)

  datatype Op =
    | Reserve(w: nat, s: string)
    | PutChar(w: nat)
    | PutReady(w: nat)
    | Flush                       // klog_flush_to_screen is called
    | Read                        // its next load or store

  function Truncated(s: string): string { if |s| > MAX then s[..MAX] else s }

  ghost predicate Legal(m: Klog, op: Op) {
    |m.buf| == MAX && (forall w :: w in m.writers ==> m.writers[w].done < |m.writers[w].text|) && Allowed(m, op)
  }

  ghost predicate Allowed(m: Klog, op: Op) {
    match op
    case Reserve(w, s) => w !in m.writers && s != ""
    case PutChar(w) => w in m.writers && !m.writers[w].half
    case PutReady(w) => w in m.writers && m.writers[w].half
    case Flush => m.reader == Idle
    case Read => m.reader != Idle
  }

  function Place(p: nat): (q: nat)
    ensures q < MAX
  {
    p % MAX
  }

  /** Two positions less than a buffer apart have different slots. */
  lemma PlacesDiffer(p: nat, q: nat)
    requires p < q < p + MAX
    ensures Place(p) != Place(q)
  {
  }

  function Next(w: Writer): nat { w.start + w.done }

  function WriteSlot(m: Klog, p: nat, s: Slot): Klog
    requires |m.buf| == MAX
  {
    m.(buf := m.buf[Place(p) := s])
  }

  ghost function Step(m: Klog, op: Op): Klog
    requires Legal(m, op)
  {
    match op
    case Reserve(w, s) =>
      var text := Truncated(s);
      m.(head := m.head + |text|, writers := m.writers[w := Writer(m.head, text, 0, false)], log := m.log + text)
    case PutChar(w) =>
      var wr := m.writers[w];
      WriteSlot(m, Next(wr), m.buf[Place(Next(wr))].(c := wr.text[wr.done])).(
        writers := m.writers[w := wr.(half := true)], last := m.last[Place(Next(wr)) := Next(wr)])
    case PutReady(w) =>
      var wr := m.writers[w];
      WriteSlot(m, Next(wr), m.buf[Place(Next(wr))].(ready := true)).(
        writers := if wr.done + 1 == |wr.text| then m.writers - {w} else m.writers[w := wr.(done := wr.done + 1, half := false)])
    case Flush => m.(reader := Loading)
    case Read => ReadStep(m)
  }

  /** One load or store of the reader's loop. */
  function ReadStep(m: Klog): Klog
    requires |m.buf| == MAX
  {
    match m.reader
    case Idle => m
    case Loading => m.(reader := Comparing(m.head))
    case Comparing(h) =>
      if h - m.tail > MAX then m.(tail := h - MAX, output := m.output + "[drop]", reader := Testing)
      else m.(reader := Testing)
    case Testing => m.(reader := if m.tail == m.head then Idle else Flagging)
    case Flagging => m.(reader := if m.buf[Place(m.tail)].ready then Printing else Idle)
    case Printing => m.(output := m.output + [m.buf[Place(m.tail)].c], reader := Clearing)
    case Clearing => WriteSlot(m, m.tail, m.buf[Place(m.tail)].(ready := false)).(reader := Advancing)
    case Advancing => m.(tail := m.tail + 1, reader := Loading)
  }

  // ---------- the invariant ----------

  /** Position p is reserved but not published yet. */
  ghost predicate Pending(m: Klog, p: nat) {
    exists w :: w in m.writers && Covers(m.writers[w], p)
  }

  predicate Covers(w: Writer, p: nat) { Next(w) <= p < w.start + |w.text| }

  ghost predicate Published(m: Klog, p: nat) {
    p < m.head && !Pending(m, p) && !(p == m.tail && m.reader == Advancing)
  }

  /** The slot of position p shows whether p is published, and if so its character. */
  ghost predicate SlotOK(m: Klog, p: nat)
    requires |m.buf| == MAX && |m.log| == m.head
  {
    && (m.buf[Place(p)].ready <==> Published(m, p))
    && (Published(m, p) ==> m.buf[Place(p)].c == m.log[p])
  }

  ghost predicate WriterOK(m: Klog, w: Writer)
    requires |m.buf| == MAX && |m.log| == m.head
  {
    && w.done < |w.text| && m.tail <= Next(w) && w.start + |w.text| <= m.head
    && m.log[w.start..w.start + |w.text|] == w.text
    && (w.half ==> m.buf[Place(Next(w))].c == w.text[w.done])
  }

  ghost predicate WritersApart(m: Klog) {
    forall w, w', p: nat :: w in m.writers && w' in m.writers && w != w' ==> !(Covers(m.writers[w], p) && Covers(m.writers[w'], p))
  }

  /** What the reader knows about the position it is about to print, or has printed. */
  ghost predicate ReaderOK(m: Klog) {
    && (m.reader.Comparing? ==> m.reader.head <= m.head)
    && (m.reader.Flagging? ==> m.tail < m.head)
    && (m.reader.Printing? || m.reader.Clearing? || m.reader.Advancing? ==> m.tail < m.head && !Pending(m, m.tail))
  }

  /** How many characters have been printed. */
  function Printed(m: Klog): nat { if m.reader.Clearing? || m.reader.Advancing? then m.tail + 1 else m.tail }

  /** At most a buffer full of characters is unread. */
  predicate Calm(m: Klog) { m.head <= m.tail + MAX }

  ghost predicate KlogInv(m: Klog) {
    && |m.buf| == MAX && |m.log| == m.head && m.tail <= m.head && Calm(m)
    && (forall p: nat :: m.tail <= p < m.tail + MAX ==> SlotOK(m, p))
    && (forall w :: w in m.writers ==> WriterOK(m, m.writers[w]))
    && WritersApart(m) && ReaderOK(m)
    && Printed(m) <= |m.log| && m.output == m.log[..Printed(m)]
  }

  // ---------- each step keeps it ----------

  lemma ReserveKeepsInv(m: Klog, w: nat, s: string)
    requires KlogInv(m) && Legal(m, Reserve(w, s)) && Calm(Step(m, Reserve(w, s)))
    ensures KlogInv(Step(m, Reserve(w, s)))
  {
    hide Pending, Place, Covers, Truncated, WritersApart;
    var m' := Step(m, Reserve(w, s));
    forall p: nat
      ensures Pending(m', p) <==> Pending(m, p) || m.head <= p < m'.head
      ensures Pending(m, p) ==> m.tail <= p < m.head
    {
      ReservePending(m, w, s, p);
    }
    TruncatedLength(s);
    forall p: nat | m.tail <= p < m.tail + MAX
      ensures SlotOK(m', p)
    {
      assert SlotOK(m, p);
    }
    forall v | v in m'.writers
      ensures WriterOK(m', m'.writers[v])
    {
      if v != w { assert WriterOK(m, m.writers[v]); }
    }
    ReserveApart(m, w, s);
  }

  lemma TruncatedLength(s: string)
    ensures |Truncated(s)| <= MAX && (s != "" ==> Truncated(s) != "")
  {
  }

  lemma ReservePending(m: Klog, w: nat, s: string, p: nat)
    requires KlogInv(m) && Legal(m, Reserve(w, s))
    ensures Pending(Step(m, Reserve(w, s)), p) <==> Pending(m, p) || m.head <= p < Step(m, Reserve(w, s)).head
    ensures Pending(m, p) ==> m.tail <= p < m.head
  {
    hide SlotOK, WritersApart, Truncated;
    var m' := Step(m, Reserve(w, s));
    if Pending(m, p) {
      var v :| v in m.writers && Covers(m.writers[v], p);
      assert v in m'.writers && Covers(m'.writers[v], p) && WriterOK(m, m.writers[v]);
    }
    if m.head <= p < m'.head { assert Covers(m'.writers[w], p); }
  }

  lemma ReserveApart(m: Klog, w: nat, s: string)
    requires KlogInv(m) && Legal(m, Reserve(w, s))
    ensures WritersApart(Step(m, Reserve(w, s)))
  {
    hide SlotOK, Truncated;
    var m' := Step(m, Reserve(w, s));
    forall v, v', p: nat | v in m'.writers && v' in m'.writers && v != v'
      ensures !(Covers(m'.writers[v], p) && Covers(m'.writers[v'], p))
    {
      if v != w { assert WriterOK(m, m.writers[v]); }
      if v' != w { assert WriterOK(m, m.writers[v']); }
    }
  }

  lemma WriterAt(m: Klog, w: nat)
    requires KlogInv(m) && w in m.writers
    ensures WritersApart(m) && WriterOK(m, m.writers[w]) && Covers(m.writers[w], Next(m.writers[w])) && Pending(m, Next(m.writers[w]))
    ensures m.tail <= Next(m.writers[w]) < m.head
    ensures forall v :: v in m.writers && v != w ==> Next(m.writers[v]) != Next(m.writers[w])
  {
    var p := Next(m.writers[w]);
    assert Covers(m.writers[w], p);
    forall v | v in m.writers && v != w
      ensures Next(m.writers[v]) != p
    {
      assert WriterOK(m, m.writers[v]) && Covers(m.writers[v], Next(m.writers[v]));
    }
  }

  /** Writing one slot of a position in the window leaves the others alone. */
  lemma OtherSlot(m: Klog, p: nat, s: Slot, q: nat)
    requires |m.buf| == MAX && m.tail <= p < m.tail + MAX && m.tail <= q < m.tail + MAX
    ensures WriteSlot(m, p, s).buf[Place(q)] == if q == p then s else m.buf[Place(q)]
  {
    if q < p { PlacesDiffer(q, p); }
    if p < q { PlacesDiffer(p, q); }
  }

  lemma ApartAt(m: Klog, v: nat, w: nat, p: nat)
    requires WritersApart(m) && v in m.writers && w in m.writers && v != w
    ensures !(Covers(m.writers[v], p) && Covers(m.writers[w], p))
  {
  }

  lemma SlotAt(m: Klog, p: nat)
    requires KlogInv(m) && m.tail <= p < m.tail + MAX
    ensures SlotOK(m, p)
  {
  }

  /** The slots after a write to that of position p0, when only p0 may change from pending to published. */
  lemma WriteKeepsSlots(m: Klog, m': Klog, p0: nat, s0: Slot)
    requires KlogInv(m) && |m'.buf| == MAX && m'.buf == WriteSlot(m, p0, s0).buf && m.tail <= p0 < m.head && Pending(m, p0)
    requires m'.head == m.head && m'.tail == m.tail && m'.log == m.log && m'.reader == m.reader
    requires forall p :: p != p0 ==> (Pending(m', p) <==> Pending(m, p))
    requires s0.ready <==> !Pending(m', p0)
    requires s0.ready ==> s0.c == m.log[p0]
    ensures forall p: nat :: m.tail <= p < m.tail + MAX ==> SlotOK(m', p)
  {
    hide Pending, Place, WriteSlot, Covers, WritersApart, WriterOK;
    forall p: nat | m.tail <= p < m.tail + MAX
      ensures SlotOK(m', p)
    {
      SlotAt(m, p);
      OtherSlot(m, p0, s0, p);
    }
  }

  /** Writer v after writer w advanced to `after`, having written the slot of its position. */
  lemma WriteKeepsWriter(m: Klog, m': Klog, w: nat, s0: Slot, after: Writer, v: nat)
    requires KlogInv(m) && w in m.writers && v in m.writers && |m'.buf| == MAX && m'.buf == WriteSlot(m, Next(m.writers[w]), s0).buf
    requires m'.head == m.head && m'.tail == m.tail && m'.log == m.log
    requires after.start == m.writers[w].start && after.text == m.writers[w].text && m.writers[w].done <= after.done < |after.text|
    requires after.half ==> after.done == m.writers[w].done && s0.c == after.text[after.done]
    ensures WriterOK(m', if v == w then after else m.writers[v])
  {
    hide KlogInv, Pending, Place, WriteSlot, Covers;
    WriterAt(m, v);
    WriterAt(m, w);
    Bounds(m);
    var p0, q := Next(m.writers[w]), Next(m.writers[v]);
    OtherSlot(m, p0, s0, q);
    if v == w { assert after.half ==> Next(after) == p0; }
  }

  lemma Bounds(m: Klog)
    requires KlogInv(m)
    ensures |m.buf| == MAX && |m.log| == m.head && m.head <= m.tail + MAX
    ensures forall w :: w in m.writers ==> m.writers[w].done < |m.writers[w].text|
  {
    assert forall w :: w in m.writers ==> WriterOK(m, m.writers[w]);
  }

  /** Writers that only got further stay apart. */
  lemma FurtherApart(m: Klog, m': Klog)
    requires WritersApart(m) && m'.writers.Keys <= m.writers.Keys
    requires forall w :: w in m'.writers ==> m'.writers[w].start == m.writers[w].start && m'.writers[w].text == m.writers[w].text && m'.writers[w].done >= m.writers[w].done
    ensures WritersApart(m')
  {
    hide Covers;
    forall v, v', p: nat | v in m'.writers && v' in m'.writers && v != v'
      ensures !(Covers(m'.writers[v], p) && Covers(m'.writers[v'], p))
    {
      FewerCovers(m.writers[v], m'.writers[v], p);
      FewerCovers(m.writers[v'], m'.writers[v'], p);
      ApartAt(m, v, v', p);
    }
  }

  lemma PutCharKeepsInv(m: Klog, w: nat)
    requires KlogInv(m) && Legal(m, PutChar(w))
    ensures KlogInv(Step(m, PutChar(w)))
  {
    hide Pending, Place, Covers, WritersApart, WriterOK, SlotOK;
    Bounds(m);
    WriterAt(m, w);
    WriterFacts(m, w);
    SlotReady(m, w);
    var wr := m.writers[w];
    var s0 := m.buf[Place(Next(wr))].(c := wr.text[wr.done]);
    var m' := Step(m, PutChar(w));
    forall p: nat
      ensures Pending(m', p) <==> Pending(m, p)
    {
      SamePending(m, m', p);
    }
    WriteKeepsSlots(m, m', Next(wr), s0);
    forall v | v in m'.writers
      ensures WriterOK(m', m'.writers[v])
    {
      WriteKeepsWriter(m, m', w, s0, wr.(half := true), v);
    }
    FurtherApart(m, m');
  }

  lemma WriterFacts(m: Klog, w: nat)
    requires KlogInv(m) && w in m.writers
    ensures var wr := m.writers[w];
            && wr.done < |wr.text| && Next(wr) < m.head && m.log[Next(wr)] == wr.text[wr.done]
            && (wr.half ==> m.buf[Place(Next(wr))].c == wr.text[wr.done])
  {
    hide Pending, Place, Covers, WritersApart, SlotOK;
    var wr := m.writers[w];
    assert WriterOK(m, wr);
    assert m.log[wr.start..wr.start + |wr.text|][wr.done] == wr.text[wr.done];
  }

  /** The slot of a pending position has its flag clear. */
  lemma SlotReady(m: Klog, w: nat)
    requires KlogInv(m) && w in m.writers
    ensures !m.buf[Place(Next(m.writers[w]))].ready
  {
    hide Pending, Place, Covers, WritersApart, WriterOK;
    WriterAt(m, w);
    SlotAt(m, Next(m.writers[w]));
  }

  /** Writers at the same places leave the same positions pending. */
  lemma SamePending(m: Klog, m': Klog, p: nat)
    requires m'.writers.Keys == m.writers.Keys
    requires forall w :: w in m.writers ==> m'.writers[w].start == m.writers[w].start && m'.writers[w].text == m.writers[w].text && m'.writers[w].done == m.writers[w].done
    ensures Pending(m', p) <==> Pending(m, p)
  {
    if Pending(m, p) {
      var w :| w in m.writers && Covers(m.writers[w], p);
      assert Covers(m'.writers[w], p);
    }
    if Pending(m', p) {
      var w :| w in m'.writers && Covers(m'.writers[w], p);
      assert Covers(m.writers[w], p);
    }
  }

  lemma PutReadyPending(m: Klog, w: nat, p: nat)
    requires KlogInv(m) && Legal(m, PutReady(w))
    ensures Pending(Step(m, PutReady(w)), p) <==> Pending(m, p) && p != Next(m.writers[w])
  {
    hide KlogInv, WriterOK, WritersApart, Place;
    var m' := Step(m, PutReady(w));
    var p0 := Next(m.writers[w]);
    WriterAt(m, w);
    if Pending(m, p) && p != p0 {
      var v :| v in m.writers && Covers(m.writers[v], p);
      assert v in m'.writers && Covers(m'.writers[v], p);
    }
    if Pending(m', p) {
      var v :| v in m'.writers && Covers(m'.writers[v], p);
      assert Covers(m.writers[v], p);
      if v != w { ApartAt(m, v, w, p); }
    }
  }

  lemma PutReadyKeepsInv(m: Klog, w: nat)
    requires KlogInv(m) && Legal(m, PutReady(w))
    ensures KlogInv(Step(m, PutReady(w)))
  {
    hide Pending, Place, Covers, WritersApart, WriterOK, SlotOK;
    Bounds(m);
    WriterAt(m, w);
    WriterFacts(m, w);
    var wr := m.writers[w];
    var s0 := m.buf[Place(Next(wr))].(ready := true);
    var m' := Step(m, PutReady(w));
    forall p: nat
      ensures Pending(m', p) <==> Pending(m, p) && p != Next(wr)
    {
      PutReadyPending(m, w, p);
    }
    WriteKeepsSlots(m, m', Next(wr), s0);
    forall v | v in m'.writers
      ensures WriterOK(m', m'.writers[v])
    {
      WriteKeepsWriter(m, m', w, s0, if wr.done + 1 < |wr.text| then wr.(done := wr.done + 1, half := false) else wr.(half := false), v);
    }
    FurtherApart(m, m');
  }

  lemma FewerCovers(w: Writer, w': Writer, p: nat)
    requires w'.start == w.start && w'.text == w.text && w'.done >= w.done
    ensures Covers(w', p) ==> Covers(w, p)
  {
  }

  /** The position after the window has the slot of the tail. */
  lemma PlaceWraps(p: nat)
    ensures Place(p + MAX) == Place(p)
  {
  }

  /** A step that only moves the reader keeps slots and writers. */
  lemma ReaderMoves(m: Klog, m': Klog)
    requires KlogInv(m) && m'.buf == m.buf && m'.head == m.head && m'.tail == m.tail && m'.writers == m.writers && m'.log == m.log
    requires m.reader != Advancing && m'.reader != Advancing
    ensures forall p :: Pending(m', p) <==> Pending(m, p)
    ensures (forall p: nat :: m.tail <= p < m.tail + MAX ==> SlotOK(m', p)) && WritersApart(m')
    ensures forall w :: w in m'.writers ==> WriterOK(m', m'.writers[w])
  {
    hide Pending, Place, Covers, WritersApart;
    forall p: nat
      ensures Pending(m', p) <==> Pending(m, p)
    {
      SamePending(m, m', p);
    }
    forall p: nat | m.tail <= p < m.tail + MAX
      ensures SlotOK(m', p)
    {
      SlotAt(m, p);
    }
    forall v | v in m'.writers
      ensures WriterOK(m', m'.writers[v])
    {
      assert WriterOK(m, m.writers[v]);
    }
    FurtherApart(m, m');
  }

  lemma ReadKeepsInv(m: Klog)
    requires KlogInv(m) && Legal(m, Read)
    ensures KlogInv(Step(m, Read))
  {
    hide Pending, Place, Covers, WritersApart, WriterOK;
    if m.reader == Clearing {
      ClearKeepsInv(m);
    } else if m.reader == Advancing {
      AdvanceKeepsInv(m);
    } else {
      SlotAt(m, m.tail);
      ReaderMoves(m, ReadStep(m));
    }
  }

  lemma ClearKeepsInv(m: Klog)
    requires KlogInv(m) && m.reader == Clearing
    ensures KlogInv(ReadStep(m))
  {
    hide Pending, Place, Covers, WritersApart;
    var m', s0 := ReadStep(m), m.buf[Place(m.tail)].(ready := false);
    forall p: nat
      ensures Pending(m', p) <==> Pending(m, p)
    {
      SamePending(m, m', p);
    }
    forall p: nat | m.tail <= p < m.tail + MAX
      ensures SlotOK(m', p)
    {
      SlotAt(m, p);
      OtherSlot(m, m.tail, s0, p);
    }
    forall v | v in m'.writers
      ensures WriterOK(m', m'.writers[v])
    {
      WriterAt(m, v);
      OtherSlot(m, m.tail, s0, Next(m.writers[v]));
    }
    FurtherApart(m, m');
  }

  lemma AdvanceKeepsInv(m: Klog)
    requires KlogInv(m) && m.reader == Advancing
    ensures KlogInv(ReadStep(m))
  {
    hide Pending, Place, Covers, WritersApart;
    var m' := ReadStep(m);
    forall p: nat
      ensures Pending(m', p) <==> Pending(m, p)
    {
      SamePending(m, m', p);
    }
    PlaceWraps(m.tail);
    forall p: nat | m'.tail <= p < m'.tail + MAX
      ensures SlotOK(m', p)
    {
      SlotAt(m, if p < m.tail + MAX then p else m.tail);
    }
    forall v | v in m'.writers
      ensures WriterOK(m', m'.writers[v])
    {
      WriterAt(m, v);
    }
    FurtherApart(m, m');
  }

  lemma FlushKeepsInv(m: Klog)
    requires KlogInv(m) && Legal(m, Flush)
    ensures KlogInv(Step(m, Flush))
  {
    hide Pending, Place, Covers, WritersApart;
    var m' := Step(m, Flush);
    forall p: nat
      ensures Pending(m', p) <==> Pending(m, p)
    {
      SamePending(m, m', p);
    }
    forall p: nat | m.tail <= p < m.tail + MAX
      ensures SlotOK(m', p)
    {
      SlotAt(m, p);
    }
    forall v | v in m'.writers
      ensures WriterOK(m', m'.writers[v])
    {
      assert WriterOK(m, m.writers[v]);
    }
    FurtherApart(m, m');
  }

  lemma StepKeepsInv(m: Klog, op: Op)
    requires KlogInv(m) && Legal(m, op) && Calm(Step(m, op))
    ensures KlogInv(Step(m, op))
  {
    match op
    case Reserve(w, s) => ReserveKeepsInv(m, w, s);
    case PutChar(w) => PutCharKeepsInv(m, w);
    case PutReady(w) => PutReadyKeepsInv(m, w);
    case Flush => FlushKeepsInv(m);
    case Read => ReadKeepsInv(m);
  }

  // ---------- runs ----------

  /** A run from m to m' in which never more than a buffer full is unread. */
  ghost predicate CalmRun(m: Klog, ops: seq<Op>, m': Klog)
    decreases |ops|
  {
    && Calm(m)
    && if ops == [] then m' == m else Legal(m, ops[0]) && CalmRun(Step(m, ops[0]), ops[1..], m')
  }

  /** What the writers asked to log, in the order of their reservations. */
  function Reserved(ops: seq<Op>): string {
    if ops == [] then "" else ReservedIn(ops[0]) + Reserved(ops[1..])
  }

  function ReservedIn(op: Op): string { if op.Reserve? then Truncated(op.s) else "" }

  /** What callers passed to klog_write, one message after the other. */
  function Passed(ops: seq<Op>): string {
    if ops == [] then "" else (if ops[0].Reserve? then ops[0].s else "") + Passed(ops[1..])
  }

  /** No message is longer than the buffer. */
  ghost predicate Short(ops: seq<Op>) {
    forall k :: 0 <= k < |ops| && ops[k].Reserve? ==> |ops[k].s| <= MAX
  }

  /** Such messages are logged whole. */
  lemma {:induction false} LoggedWhole(ops: seq<Op>)
    requires Short(ops)
    ensures Reserved(ops) == Passed(ops)
    decreases |ops|
  {
    if ops != [] {
      assert Short(ops[1..]);
      LoggedWhole(ops[1..]);
    }
  }

  lemma {:induction false} RunKeepsInv(m: Klog, ops: seq<Op>, m': Klog)
    requires KlogInv(m) && CalmRun(m, ops, m')
    ensures KlogInv(m') && m'.log == m.log + Reserved(ops)
    decreases |ops|
  {
    hide KlogInv, Legal;
    if ops != [] {
      StepKeepsInv(m, ops[0]);
      RunKeepsInv(Step(m, ops[0]), ops[1..], m');
      StepReserves(m, ops[0]);
      assert Reserved(ops) == ReservedIn(ops[0]) + Reserved(ops[1..]);
    } else {
      assert Reserved(ops) == "";
    }
  }

  lemma StepReserves(m: Klog, op: Op)
    requires Legal(m, op)
    ensures Step(m, op).log == m.log + ReservedIn(op)
  {
  }

  /** An empty log with all flags clear. */
  ghost predicate Fresh(m: Klog) {
    && |m.buf| == MAX && (forall q :: 0 <= q < MAX ==> !m.buf[q].ready)
    && m.head == 0 && m.tail == 0 && m.writers == map[] && m.reader == Idle && m.output == "" && m.log == "" && m.last == map[]
  }

  /** In every interleaving of writers and reader that never leaves more than a buffer full unread, what is printed is
      an exact prefix of what was logged, in reservation order, with no drop mark; and messages no longer than the buffer are
      logged whole. */
  lemma PrintsInOrder(m: Klog, ops: seq<Op>, m': Klog)
    requires Fresh(m) && CalmRun(m, ops, m')
    ensures m'.output <= Reserved(ops)
    ensures m'.reader == Idle ==> m'.tail <= |Reserved(ops)| && m'.output == Reserved(ops)[..m'.tail]
    ensures Short(ops) ==> Reserved(ops) == Passed(ops)
  {
    assert KlogInv(m) by {
      forall p: nat | p < MAX
        ensures SlotOK(m, p)
      {
        assert Place(p) == p;
      }
    }
    RunKeepsInv(m, ops, m');
    if Short(ops) { LoggedWhole(ops); }
    assert "" + Reserved(ops) == Reserved(ops);
  }

  /** A reader that stops before the end of the log stops at a position whose writer has not published it. */
  lemma StopsOnlyAtPending(m: Klog)
    requires KlogInv(m) && m.reader == Flagging && ReadStep(m).reader == Idle
    ensures Pending(m, m.tail)
  {
    SlotAt(m, m.tail);
  }
}
