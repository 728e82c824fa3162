/** How far the two mailbox backends answer alike, although one keeps expired messages that the
    other has dropped, and one counts the sizes it was given and the other the compact lengths. */
module MailboxEquivalence {
  import opened Types
  import opened Mailbox
  import opened MailboxPage
  import opened MailboxBackends
  import opened MailboxRows
  import opened MailboxRuns

  /** At time `t` the two hold the same messages that are still live, in the same order, and the
      same counters from the current minute on. */
  ghost predicate Alike(m: Memory, s: Table, l: Limits, t: real) {
    && (forall r :: Live(Box(m.boxes, r), t, l.ttl) == Live(RowsOf(s.rows, r), t, l.ttl))
    && (forall sender, minute :: minute >= Minute(t) ==>
         Count(m.rates, sender, minute) == Count(s.rates, sender, minute))
  }

  /** The declared size is the compact length. */
  predicate Compact(op: Op) {
    op.Put? ==> SizeOf(op.envelope, op.size) == op.envelope.length
  }

  /** The declared size is not below the compact length, which is what the in-memory store counts. */
  predicate HonestSize(op: Op) {
    op.Put? ==> SizeOf(op.envelope, op.size) >= op.envelope.length
  }

  /** An acknowledgement of a delivery that has expired; the backends may differ on it. */
  predicate Stale(m: Memory, l: Limits, op: Op, t: real) {
    op.Ack? && forall i :: 0 <= i < |Live(Box(m.boxes, op.receiver), t, l.ttl)| ==>
                 Live(Box(m.boxes, op.receiver), t, l.ttl)[i].id != op.id
  }

  lemma MinuteMonotone(t: real, now: real)
    requires t <= now
    ensures Minute(t) <= Minute(now)
  {
    assert t / 60.0 <= now / 60.0;
  }

  lemma AlikeLater(m: Memory, s: Table, l: Limits, t: real, now: real)
    requires Alike(m, s, l, t) && t <= now
    ensures Alike(m, s, l, now)
  {
    MinuteMonotone(t, now);
    forall r ensures Live(Box(m.boxes, r), now, l.ttl) == Live(RowsOf(s.rows, r), now, l.ttl) {
      LiveLater(Box(m.boxes, r), t, now, l.ttl);
      LiveLater(RowsOf(s.rows, r), t, now, l.ttl);
    }
  }

  // Sizes

  /** What the table counts beyond the compact lengths; of one receiver's rows, or of all. */
  function Spare(rows: seq<Row>, receiver: Option<Agent>): int {
    if rows == [] then 0
    else
      var last := rows[|rows| - 1];
      Spare(rows[..|rows| - 1], receiver)
      + if receiver.None? || receiver.value == last.receiver then last.bytes - last.message.envelope.length else 0
  }

  /** With sizes that are not understated nothing is spare exactly when they are compact. */
  lemma {:induction false} SpareFacts(rows: seq<Row>, receiver: Option<Agent>)
    requires forall x :: x in rows ==> x.bytes >= x.message.envelope.length
    ensures Spare(rows, receiver) >= 0
    ensures Spare(rows, receiver) == 0 <==>
              forall x :: x in rows && (receiver.None? || receiver.value == x.receiver) ==>
                x.bytes == x.message.envelope.length
  {
    if rows != [] {
      var n := |rows| - 1;
      assert rows == rows[..n] + [rows[n]] && rows[n] in rows;
      SpareFacts(rows[..n], receiver);
    }
  }

  lemma {:induction false} ReceiverBytesMatch(rows: seq<Row>, r: Agent)
    ensures Bytes(RowsOf(rows, r)) + Spare(rows, Some(r)) == SumBytes(rows, Some(r))
  {
    if rows != [] {
      var n := |rows| - 1;
      assert rows == rows[..n] + [rows[n]];
      ReceiverBytesMatch(rows[..n], r);
      RowsOfConcat(rows[..n], rows[n], r);
      BytesConcat(RowsOf(rows[..n], r), rows[n].message);
      hide RowsOf, Bytes;
    }
  }

  function RowWeight(rows: seq<Row>, m: Measure): int {
    if m.Messages? then |rows| else SumBytes(rows, None) - Spare(rows, None)
  }

  /** Boxes that hold exactly the rows, receiver by receiver, weigh as much in all. */
  lemma {:induction false} TotalsMatch(boxes: map<Agent, seq<Stored>>, rows: seq<Row>, m: Measure)
    requires forall r :: Box(boxes, r) == RowsOf(rows, r)
    ensures Total(boxes, m) == RowWeight(rows, m)
    decreases |rows|
  {
    if rows == [] {
      forall r | r in boxes ensures boxes[r] == [] {
        assert Box(boxes, r) == RowsOf(rows, r);
      }
      EmptyWeighsNothing(boxes, boxes.Keys, m);
    } else {
      var n := |rows| - 1;
      var front, last := rows[..n], rows[n];
      var box := RowsOf(front, last.receiver);
      var smaller := boxes[last.receiver := box];
      forall r ensures Box(smaller, r) == RowsOf(front, r) {
        assert Box(boxes, r) == RowsOf(rows, r);
        RowsOfConcat(front, last, r);
        assert front + [last] == rows;
      }
      TotalsMatch(smaller, front, m);
      TotalUpdate(boxes, last.receiver, box, m);
      assert Box(boxes, last.receiver) == box + [last.message];
      assert (box + [last.message])[..|box|] == box;
    }
  }

  lemma {:induction false} EmptyWeighsNothing(boxes: map<Agent, seq<Stored>>, keys: set<Agent>, m: Measure)
    requires keys <= boxes.Keys && forall r :: r in keys ==> boxes[r] == []
    ensures WeightOf(boxes, keys, m) == 0
  {
    if keys != {} {
      var k :| k in keys;
      WeightWithout(boxes, keys, k, m);
      EmptyWeighsNothing(boxes, keys - {k}, m);
    }
  }

  /** Every row of the table comes from a `put` of the run, with the size that it declared. */
  ghost predicate FromPut(ops: seq<Op>, x: Row) {
    exists i :: 0 <= i < |ops| && ops[i].Put? && x.message.envelope == ops[i].envelope
                && x.bytes == SizeOf(ops[i].envelope, ops[i].size)
  }

  lemma {:induction false} LiveRowsAreRows(rows: seq<Row>, now: real, ttl: real)
    ensures forall x :: x in LiveRows(rows, now, ttl) ==> x in rows
  {
    if rows != [] {
      LiveRowsAreRows(rows[..|rows| - 1], now, ttl);
    }
  }

  lemma TableStepKeepsRows(s: Table, l: Limits, op: Op, x: Row)
    requires x in TableStep(s, l, op).0.rows
    ensures x in s.rows || (op.Put? && x.message.envelope == op.envelope && x.bytes == SizeOf(op.envelope, op.size))
  {
    match op
    case AllowSend(_, _) =>
    case Ack(receiver, id) => AckRows(s.rows, receiver, id, receiver);
    case _ => LiveRowsAreRows(s.rows, op.now, l.ttl);
  }

  lemma {:induction false} RowsWerePut(l: Limits, ops: seq<Op>, x: Row)
    requires x in RunTable(l, ops).rows
    ensures FromPut(ops, x)
  {
    if ops != [] {
      var n := |ops| - 1;
      TableStepKeepsRows(RunTable(l, ops[..n]), l, ops[n], x);
      hide TableStep;
      if x in RunTable(l, ops[..n]).rows {
        RowsWerePut(l, ops[..n], x);
        var i :| 0 <= i < n && ops[..n][i].Put? && x.message.envelope == ops[..n][i].envelope
                 && x.bytes == SizeOf(ops[..n][i].envelope, ops[..n][i].size);
        assert ops[i] == ops[..n][i];
      } else {
        assert ops[n].Put?;
      }
    }
  }

  ghost predicate AllCompact(ops: seq<Op>) {
    forall op :: op in ops ==> Compact(op)
  }

  ghost predicate AllHonest(ops: seq<Op>) {
    forall op :: op in ops ==> HonestSize(op)
  }

  lemma RowSizes(l: Limits, ops: seq<Op>)
    ensures AllHonest(ops) ==> forall x :: x in RunTable(l, ops).rows ==> x.bytes >= x.message.envelope.length
    ensures AllCompact(ops) ==> forall x :: x in RunTable(l, ops).rows ==> x.bytes == x.message.envelope.length
  {
    forall x | x in RunTable(l, ops).rows
      ensures AllHonest(ops) ==> x.bytes >= x.message.envelope.length
      ensures AllCompact(ops) ==> x.bytes == x.message.envelope.length
    {
      RowsWerePut(l, ops, x);
      var i :| 0 <= i < |ops| && ops[i].Put? && x.message.envelope == ops[i].envelope
               && x.bytes == SizeOf(ops[i].envelope, ops[i].size);
      assert ops[i] in ops;
    }
  }

  // One operation

  /** After both have purged, each receiver's box and rows are the same list. */
  lemma PurgedAlike(m: Memory, s: Table, l: Limits, now: real)
    requires Alike(m, s, l, now)
    ensures var p := PurgeMemory(m, l, now);
            var rows := LiveRows(s.rows, now, l.ttl);
            && (forall r :: Box(p.boxes, r) == RowsOf(rows, r))
            && Total(p.boxes, Size) + Spare(rows, None) == SumBytes(rows, None) && Total(p.boxes, Messages) == |rows|
            && (forall r :: Bytes(Box(p.boxes, r)) + Spare(rows, Some(r)) == SumBytes(rows, Some(r)))
            && Alike(p, s, l, now) && Alike(p, s.(rows := rows), l, now)
  {
    var p := PurgeMemory(m, l, now);
    var rows := LiveRows(s.rows, now, l.ttl);
    forall r ensures Box(p.boxes, r) == RowsOf(rows, r) == Live(Box(m.boxes, r), now, l.ttl) {
      RowsOfLive(s.rows, r, now, l.ttl);
    }
    TotalsMatch(p.boxes, rows, Size);
    TotalsMatch(p.boxes, rows, Messages);
    forall r ensures Bytes(Box(p.boxes, r)) + Spare(rows, Some(r)) == SumBytes(rows, Some(r)) {
      ReceiverBytesMatch(rows, r);
    }
    forall r ensures Live(Box(p.boxes, r), now, l.ttl) == Live(RowsOf(s.rows, r), now, l.ttl)
      == Live(RowsOf(rows, r), now, l.ttl) {
      LiveLater(Box(m.boxes, r), now, now, l.ttl);
      RowsOfLive(s.rows, r, now, l.ttl);
    }
    forall sender, minute | minute >= Minute(now)
      ensures Count(p.rates, sender, minute) == Count(s.rates, sender, minute)
    {
      assert Count(m.rates, sender, minute) == Count(s.rates, sender, minute);
    }
  }

  lemma AckAlike(m: Memory, s: Table, l: Limits, op: Op, t: real)
    requires Alike(m, s, l, t) && op.Ack?
    ensures Alike(MemoryStep(m, l, op).0, TableStep(s, l, op).0, l, t)
    ensures !Stale(m, l, op, t) ==> MemoryStep(m, l, op).1 == TableStep(s, l, op).1 == Acknowledged(true)
  {
    var after, after' := MemoryStep(m, l, op).0, TableStep(s, l, op).0;
    var box := Box(m.boxes, op.receiver);
    WithoutIdFinds(box, op.id);
    assert after.rates == m.rates && after'.rates == s.rates;
    forall r ensures Live(Box(after.boxes, r), t, l.ttl) == Live(RowsOf(after'.rows, r), t, l.ttl) {
      AckRows(s.rows, op.receiver, op.id, r);
      if r == op.receiver {
        assert Box(after.boxes, r) == WithoutId(box, op.id);
        AckBox(box, op.id, t, l.ttl);
        AckBox(RowsOf(s.rows, r), op.id, t, l.ttl);
      } else {
        assert Box(after.boxes, r) == Box(m.boxes, r);
      }
    }
    if !Stale(m, l, op, t) {
      assert Contains(Live(box, t, l.ttl), op.id);
      LiveContained(box, t, l.ttl, op.id);
      LiveContained(RowsOf(s.rows, op.receiver), t, l.ttl, op.id);
      WithoutIdFinds(RowsOf(s.rows, op.receiver), op.id);
      WithoutRowFinds(s.rows, op.receiver, op.id);
    }
  }

  /** Storing one message on both sides keeps them alike. */
  lemma StoredAlike(p: Memory, s: Table, l: Limits, x: Row, now: real)
    requires Alike(p, s, l, now) && forall r :: Box(p.boxes, r) == RowsOf(s.rows, r)
    ensures Alike(p.(boxes := p.boxes[x.receiver := Box(p.boxes, x.receiver) + [x.message]]),
              s.(rows := s.rows + [x]), l, now)
  {
    var after := p.(boxes := p.boxes[x.receiver := Box(p.boxes, x.receiver) + [x.message]]);
    forall r ensures Box(after.boxes, r) == RowsOf(s.rows + [x], r) {
      RowsOfConcat(s.rows, x, r);
      assert Box(p.boxes, r) == RowsOf(s.rows, r);
    }
    hide Live, RowsOf, Box;
  }

  /** What the two capacity checks compare, given what the in-memory store counts. */
  lemma PutVerdicts(m: Memory, s: Table, l: Limits, op: Op)
    requires op.Put? && Alike(m, s, l, op.now)
    ensures var p := PurgeMemory(m, l, op.now);
            var rows := LiveRows(s.rows, op.now, l.ttl);
            var size := SizeOf(op.envelope, op.size);
            var count := |RowsOf(rows, op.receiver)|;
            var lighter := Overflow(l, count, Bytes(Box(p.boxes, op.receiver)), Total(p.boxes, Size), size);
            var heavier := Overflow(l, count, SumBytes(rows, Some(op.receiver)), SumBytes(rows, None), size);
            && MemoryStep(m, l, op).1 == PutOut(if lighter.Some? then CapacityExceeded(lighter.value)
                 else Delivered(op.id))
            && TableStep(s, l, op).1 == PutOut(if heavier.Some? then CapacityExceeded(heavier.value)
                 else Delivered(op.id))
            && Bytes(Box(p.boxes, op.receiver)) + Spare(rows, Some(op.receiver)) == SumBytes(rows, Some(op.receiver))
            && Total(p.boxes, Size) + Spare(rows, None) == SumBytes(rows, None)
  {
    hide Alike, PurgeMemory, LiveRows, RowsOf, Box, Bytes, SumBytes, Spare, WeightOf, Total;
    PurgedAlike(m, s, l, op.now);
    var rows := LiveRows(s.rows, op.now, l.ttl);
    var p := PurgeMemory(m, l, op.now);
    assert Box(p.boxes, op.receiver) == RowsOf(rows, op.receiver);
    assert Bytes(Box(p.boxes, op.receiver)) + Spare(rows, Some(op.receiver)) == SumBytes(rows, Some(op.receiver));
  }

  lemma PutAlike(m: Memory, s: Table, l: Limits, op: Op)
    requires op.Put? && Alike(m, s, l, op.now) && MemoryStep(m, l, op).1 == TableStep(s, l, op).1
    ensures Alike(MemoryStep(m, l, op).0, TableStep(s, l, op).0, l, op.now)
  {
    hide Alike, PurgeMemory, LiveRows, RowsOf, Box, Bytes, SumBytes, Spare, WeightOf;
    PurgedAlike(m, s, l, op.now);
    var p := PurgeMemory(m, l, op.now);
    var rows := LiveRows(s.rows, op.now, l.ttl);
    var x := Row(op.receiver, Stored(op.id, op.envelope, op.now), SizeOf(op.envelope, op.size));
    assert Box(p.boxes, op.receiver) == RowsOf(rows, op.receiver);
    StoredAlike(p, s.(rows := rows), l, x, op.now);
  }

  lemma AllowAlike(m: Memory, s: Table, l: Limits, op: Op)
    requires op.AllowSend? && Alike(m, s, l, op.now)
    ensures Alike(MemoryStep(m, l, op).0, TableStep(s, l, op).0, l, op.now)
    ensures MemoryStep(m, l, op).1 == TableStep(s, l, op).1
  {
    var after, after' := MemoryStep(m, l, op).0, TableStep(s, l, op).0;
    assert Count(m.rates, op.sender, Minute(op.now)) == Count(s.rates, op.sender, Minute(op.now));
    forall sender, minute | minute >= Minute(op.now)
      ensures Count(after.rates, sender, minute) == Count(after'.rates, sender, minute)
    {
      assert Count(m.rates, sender, minute) == Count(s.rates, sender, minute);
    }
  }

  /** The byte count aside, two answers are the same. */
  predicate SameButBytes(a: Out, b: Out) {
    if a.Stats? && b.Stats? then a.count == b.count else a == b
  }

  lemma ReadAlike(m: Memory, s: Table, l: Limits, op: Op)
    requires (op.Fetch? || op.PendingStats?) && Callable(op) && Alike(m, s, l, op.now)
    ensures Alike(MemoryStep(m, l, op).0, TableStep(s, l, op).0, l, op.now)
    ensures SameButBytes(MemoryStep(m, l, op).1, TableStep(s, l, op).1)
    ensures op.PendingStats? ==>
              TableStep(s, l, op).1.bytes == MemoryStep(m, l, op).1.bytes + Spare(LiveRows(s.rows, op.now, l.ttl), None)
  {
    hide Alike, PurgeMemory, LiveRows, RowsOf, Box, SumBytes, Spare, WeightOf;
    PurgedAlike(m, s, l, op.now);
    if op.Fetch? {
      var box := Box(PurgeMemory(m, l, op.now).boxes, op.receiver);
      assert box == RowsOf(LiveRows(s.rows, op.now, l.ttl), op.receiver);
      PagesMatch(box, op.cursor, op.limit);
    }
  }

  /** One operation: the backends stay alike when they agree on it if it is a `put`; and they do
      agree on everything else, up to the count of bytes and to stale acknowledgements. */
  lemma StepAlike(m: Memory, s: Table, l: Limits, op: Op, t: real)
    requires Alike(m, s, l, t) && Callable(op) && t <= TimeOf(op, t)
    requires op.Put? ==> MemoryStep(m, l, op).1 == TableStep(s, l, op).1
    ensures Alike(MemoryStep(m, l, op).0, TableStep(s, l, op).0, l, TimeOf(op, t))
    ensures !Stale(m, l, op, t) ==> SameButBytes(MemoryStep(m, l, op).1, TableStep(s, l, op).1)
  {
    hide Alike, MemoryStep, TableStep, Stale;
    AlikeLater(m, s, l, t, TimeOf(op, t));
    match op
    case AllowSend(_, _) => AllowAlike(m, s, l, op);
    case Put(_, _, _, _, _) => PutAlike(m, s, l, op);
    case Ack(_, _) => AckAlike(m, s, l, op, t);
    case Fetch(_, _, _, _) => ReadAlike(m, s, l, op);
    case PendingStats(_) => ReadAlike(m, s, l, op);
  }

  // Runs

  /** The table has taken every `put` of the run. */
  ghost predicate TableAccepts(l: Limits, ops: seq<Op>) {
    forall k :: 0 <= k < |ops| && ops[k].Put? ==> AnswerAt(OnTable, l, ops, k) == PutOut(Delivered(ops[k].id))
  }

  /** Every `put` of the run has met the same verdict in both backends. */
  ghost predicate SameVerdicts(l: Limits, ops: seq<Op>)
    requires AllCallable(ops)
  {
    forall k :: 0 <= k < |ops| && ops[k].Put? ==> AnswerAt(InMemory, l, ops, k) == AnswerAt(OnTable, l, ops, k)
  }

  /** While the table takes every message of a size that is not understated, the verdicts are the
      same. */
  lemma {:induction false} AcceptedAlike(l: Limits, ops: seq<Op>)
    requires Monotone(ops) && AllCallable(ops) && AllHonest(ops) && TableAccepts(l, ops)
    ensures SameVerdicts(l, ops)
  {
    hide AnswerAt, Monotone;
    if ops != [] {
      var n := |ops| - 1;
      var before := ops[..n];
      CallablePrefix(ops);
      AllHonestBefore(ops);
      forall k | 0 <= k < n { PrefixAnswers(l, ops, k); }
      MonotonePrefix(ops, n);
      AcceptedAlike(l, before);
      if ops[n].Put? {
        LastAccepted(l, ops);
      }
    }
  }

  lemma CallablePrefix(ops: seq<Op>)
    requires AllCallable(ops) && ops != []
    ensures AllCallable(ops[..|ops| - 1]) && Callable(ops[|ops| - 1])
  {
    assert forall o :: o in ops[..|ops| - 1] ==> o in ops;
  }

  lemma PrefixAnswers(l: Limits, ops: seq<Op>, k: nat)
    requires k < |ops| - 1 && AllCallable(ops) && AllCallable(ops[..|ops| - 1])
    ensures AnswerAt(OnTable, l, ops[..|ops| - 1], k) == AnswerAt(OnTable, l, ops, k)
    ensures AnswerAt(InMemory, l, ops[..|ops| - 1], k) == AnswerAt(InMemory, l, ops, k)
  {
    hide AnswerTo;
    assert ops[..|ops| - 1][..k] == ops[..k];
  }

  lemma LastAccepted(l: Limits, ops: seq<Op>)
    requires Monotone(ops) && AllCallable(ops) && AllHonest(ops) && ops != [] && ops[|ops| - 1].Put?
    requires AllCallable(ops[..|ops| - 1]) && SameVerdicts(l, ops[..|ops| - 1])
    requires AnswerAt(OnTable, l, ops, |ops| - 1) == PutOut(Delivered(ops[|ops| - 1].id))
    ensures AnswerAt(InMemory, l, ops, |ops| - 1) == AnswerAt(OnTable, l, ops, |ops| - 1)
  {
    var before, op := ops[..|ops| - 1], ops[|ops| - 1];
    RunsAlike(l, before);
    AlikeLater(RunMemory(l, before), RunTable(l, before), l, Clock(before), op.now);
    hide Alike, AllHonest, SameVerdicts, MemoryStep, TableStep, RunMemory, RunTable, AllCallable, Monotone;
    AllHonestBefore(ops);
    PutsAgree(l, before, op);
  }

  /** Sizes that are compact, or have led to the same verdicts. */
  ghost predicate Comparable(l: Limits, ops: seq<Op>) {
    Monotone(ops) && AllCallable(ops) && (AllCompact(ops) || SameVerdicts(l, ops))
  }

  lemma ComparablePrefix(l: Limits, ops: seq<Op>)
    requires Comparable(l, ops) && ops != []
    ensures Comparable(l, ops[..|ops| - 1])
  {
    hide AnswerAt, AllCallable, Monotone;
    CallablePrefix(ops);
    AllHonestBefore(ops);
    MonotonePrefix(ops, |ops| - 1);
    forall k | 0 <= k < |ops| - 1 { PrefixAnswers(l, ops, k); }
  }

  lemma LivesSizes(l: Limits, ops: seq<Op>, now: real)
    ensures AllHonest(ops) ==> forall x :: x in LiveRows(RunTable(l, ops).rows, now, l.ttl) ==>
              x.bytes >= x.message.envelope.length
    ensures AllCompact(ops) ==> forall x :: x in LiveRows(RunTable(l, ops).rows, now, l.ttl) ==>
              x.bytes == x.message.envelope.length
  {
    RowSizes(l, ops);
    LiveRowsAreRows(RunTable(l, ops).rows, now, l.ttl);
  }

  /** On a `put` the backends agree if nothing is spare, or if the table takes the message. */
  lemma PutsAgree(l: Limits, ops: seq<Op>, op: Op)
    requires op.Put? && AllCallable(ops) && Alike(RunMemory(l, ops), RunTable(l, ops), l, op.now)
    requires AllCompact(ops) || (AllHonest(ops) && TableStep(RunTable(l, ops), l, op).1 == PutOut(Delivered(op.id)))
    ensures MemoryStep(RunMemory(l, ops), l, op).1 == TableStep(RunTable(l, ops), l, op).1
  {
    hide MemoryStep, TableStep, Alike, RunMemory, RunTable, Spare, SumBytes, LiveRows, RowsOf;
    LivesSizes(l, ops, op.now);
    PutVerdicts(RunMemory(l, ops), RunTable(l, ops), l, op);
    var rows := LiveRows(RunTable(l, ops).rows, op.now, l.ttl);
    if AllCompact(ops) {
      SpareFacts(rows, Some(op.receiver));
      SpareFacts(rows, None);
    } else {
      SpareFacts(rows, Some(op.receiver));
      SpareFacts(rows, None);
    }
  }

  lemma {:induction false} RunsAlike(l: Limits, ops: seq<Op>)
    requires Comparable(l, ops)
    ensures Alike(RunMemory(l, ops), RunTable(l, ops), l, Clock(ops))
  {
    if ops != [] {
      var n := |ops| - 1;
      var before, op := ops[..n], ops[n];
      ComparablePrefix(l, ops);
      RunsAlike(l, before);
      assert op in ops && forall o :: o in before ==> o in ops;
      if op.Put? {
        AlikeLater(RunMemory(l, before), RunTable(l, before), l, Clock(before), op.now);
        assert SameVerdicts(l, ops) ==> AnswerAt(InMemory, l, ops, n) == AnswerAt(OnTable, l, ops, n);
        hide Alike, MemoryStep, TableStep, AllCompact;
        if AllCompact(ops) {
          AllHonestBefore(ops);
          PutsAgree(l, before, op);
        }
      }
      hide Alike, MemoryStep, TableStep;
      StepAlike(RunMemory(l, before), RunTable(l, before), l, op, Clock(before));
    }
  }

  lemma AllHonestBefore(ops: seq<Op>)
    requires ops != []
    ensures AllHonest(ops) ==> AllHonest(ops[..|ops| - 1])
    ensures AllCompact(ops) ==> AllCompact(ops[..|ops| - 1])
  {
    assert forall op :: op in ops[..|ops| - 1] ==> op in ops;
  }

  /** Sizes that are the compact length: after any run, the next operation gets the same answer
      from both backends, unless it acknowledges a delivery that has expired. */
  lemma BackendsAnswerAlike(l: Limits, ops: seq<Op>, op: Op)
    requires Monotone(ops + [op]) && AllCallable(ops + [op]) && AllCompact(ops + [op]) && AllCallable(ops)
               && Callable(op)
    requires !Stale(RunMemory(l, ops), l, op, Clock(ops))
    ensures AnswerTo(InMemory, l, ops, op) == AnswerTo(OnTable, l, ops, op)
  {
    assert (ops + [op])[..|ops|] == ops && forall o :: o in ops ==> o in ops + [op];
    RunsAlike(l, ops);
    AlikeLater(RunMemory(l, ops), RunTable(l, ops), l, Clock(ops), TimeOf(op, Clock(ops)));
    hide Alike, MemoryStep, TableStep, Stale;
    if op.Put? {
      PutsAgree(l, ops, op);
    }
    StepAlike(RunMemory(l, ops), RunTable(l, ops), l, op, Clock(ops));
    if op.PendingStats? {
      ReadAlike(RunMemory(l, ops), RunTable(l, ops), l, op);
      LivesSizes(l, ops, op.now);
      SpareFacts(LiveRows(RunTable(l, ops).rows, op.now, l.ttl), None);
      StatsAreStats(RunMemory(l, ops), RunTable(l, ops), l, op);
    }
  }

  lemma StatsAreStats(m: Memory, s: Table, l: Limits, op: Op)
    requires op.PendingStats?
    ensures MemoryStep(m, l, op).1.Stats? && TableStep(s, l, op).1.Stats?
  {
  }

  /** Any sizes: as long as the verdicts have been the same, the answers are, up to the count of bytes.
      Sizes that are not understated: what the table takes, the in-memory store takes too, and counts
      no more bytes; the counts agree exactly when every live message was stored with its compact
      length. */
  lemma DeclaredSizesAnswerAlike(l: Limits, ops: seq<Op>, op: Op)
    requires Monotone(ops + [op]) && AllCallable(ops) && Callable(op) && SameVerdicts(l, ops)
    requires !Stale(RunMemory(l, ops), l, op, Clock(ops))
    ensures !op.Put? ==> SameButBytes(AnswerTo(InMemory, l, ops, op), AnswerTo(OnTable, l, ops, op))
    ensures AllHonest(ops) && op.Put? && AnswerTo(OnTable, l, ops, op) == PutOut(Delivered(op.id)) ==>
              AnswerTo(InMemory, l, ops, op) == PutOut(Delivered(op.id))
    ensures AllHonest(ops) && op.PendingStats? ==>
              var mine, theirs := AnswerTo(InMemory, l, ops, op), AnswerTo(OnTable, l, ops, op);
              && mine.bytes <= theirs.bytes
              && (mine.bytes == theirs.bytes <==>
                    forall x :: x in LiveRows(RunTable(l, ops).rows, op.now, l.ttl) ==>
                      x.bytes == x.message.envelope.length)
  {
    assert (ops + [op])[..|ops|] == ops;
    RunsAlike(l, ops);
    AlikeLater(RunMemory(l, ops), RunTable(l, ops), l, Clock(ops), TimeOf(op, Clock(ops)));
    hide Alike, MemoryStep, TableStep, Stale, RunMemory, RunTable, SameVerdicts, AllHonest, AllCallable, Monotone;
    if op.Put? {
      if AllHonest(ops) && AnswerTo(OnTable, l, ops, op) == PutOut(Delivered(op.id)) {
        PutsAgree(l, ops, op);
      }
    } else {
      StepAlike(RunMemory(l, ops), RunTable(l, ops), l, op, Clock(ops));
    }
    if op.PendingStats? {
      BytesCounted(l, ops, op);
    }
  }

  lemma BytesCounted(l: Limits, ops: seq<Op>, op: Op)
    requires op.PendingStats? && AllCallable(ops) && Alike(RunMemory(l, ops), RunTable(l, ops), l, op.now)
    ensures AnswerTo(InMemory, l, ops, op).Stats? && AnswerTo(OnTable, l, ops, op).Stats?
    ensures AllHonest(ops) ==>
              var mine, theirs := AnswerTo(InMemory, l, ops, op), AnswerTo(OnTable, l, ops, op);
              && mine.bytes <= theirs.bytes
              && (mine.bytes == theirs.bytes <==>
                    forall x :: x in LiveRows(RunTable(l, ops).rows, op.now, l.ttl) ==>
                      x.bytes == x.message.envelope.length)
  {
    hide Alike, MemoryStep, TableStep, RunMemory, RunTable, AllHonest, AllCallable, LiveRows;
    StatsAreStats(RunMemory(l, ops), RunTable(l, ops), l, op);
    ReadAlike(RunMemory(l, ops), RunTable(l, ops), l, op);
    LivesSizes(l, ops, op.now);
    if AllHonest(ops) {
      SpareFacts(LiveRows(RunTable(l, ops).rows, op.now, l.ttl), None);
    }
  }

  /** Two byte counts, one no larger than the other, lead to the same verdict. */
  predicate SameVerdict(
    l: Limits, count: nat, size: nat, lighter: nat, heavier: nat, lighterTotal: nat, heavierTotal: nat
  ) {
    || count >= l.maxMessages
    || lighter + size > l.maxReceiverBytes
    || (heavier + size <= l.maxReceiverBytes
        && (lighterTotal + size > l.maxTotalBytes || heavierTotal + size <= l.maxTotalBytes))
  }

  lemma VerdictsAgree(
    l: Limits, count: nat, size: nat, lighter: nat, heavier: nat, lighterTotal: nat, heavierTotal: nat
  )
    requires lighter <= heavier && lighterTotal <= heavierTotal
    ensures Overflow(l, count, lighter, lighterTotal, size) == Overflow(l, count, heavier, heavierTotal, size)
       <==> SameVerdict(l, count, size, lighter, heavier, lighterTotal, heavierTotal)
  {
  }

  /** When the two refuse alike, exactly: unless a limit lies between what the one counts and what
      the other counts. */
  lemma RefusalsAgreeExactly(l: Limits, ops: seq<Op>, op: Op)
    requires Monotone(ops + [op]) && AllCallable(ops) && op.Put? && AllHonest(ops) && SameVerdicts(l, ops)
    ensures var p := PurgeMemory(RunMemory(l, ops), l, op.now);
            var rows := LiveRows(RunTable(l, ops).rows, op.now, l.ttl);
            AnswerTo(InMemory, l, ops, op) == AnswerTo(OnTable, l, ops, op) <==>
              SameVerdict(l, |RowsOf(rows, op.receiver)|, SizeOf(op.envelope, op.size),
                          Bytes(Box(p.boxes, op.receiver)), SumBytes(rows, Some(op.receiver)),
                          Total(p.boxes, Size), SumBytes(rows, None))
  {
    assert (ops + [op])[..|ops|] == ops;
    RunsAlike(l, ops);
    AlikeLater(RunMemory(l, ops), RunTable(l, ops), l, Clock(ops), op.now);
    hide Alike, MemoryStep, TableStep, RunMemory, RunTable, Spare, SumBytes, LiveRows, RowsOf, PurgeMemory, WeightOf,
         Total, Bytes, Box, Overflow, SameVerdict, AllHonest, SameVerdicts, Monotone;
    var rows := LiveRows(RunTable(l, ops).rows, op.now, l.ttl);
    var p := PurgeMemory(RunMemory(l, ops), l, op.now);
    LivesSizes(l, ops, op.now);
    SpareFacts(rows, Some(op.receiver));
    SpareFacts(rows, None);
    PutVerdicts(RunMemory(l, ops), RunTable(l, ops), l, op);
    VerdictsAgree(l, |RowsOf(rows, op.receiver)|, SizeOf(op.envelope, op.size), Bytes(Box(p.boxes, op.receiver)),
                  SumBytes(rows, Some(op.receiver)), Total(p.boxes, Size), SumBytes(rows, None));
  }

  /** Room for one message of no bytes, which lives for a second. */
  const TIGHT := Limits(1.0, 1, 1, 0, 0)
  const FIRST := Put(Agent(0), Envelope(0, 0), None, 0.0, 1)
  const SECOND := Put(Agent(0), Envelope(1, 1), None, 2.0, 2)

  lemma MemoryTakesFirst()
    ensures MemoryStep(Memory(map[], map[]), TIGHT, FIRST).0
              == Memory(map[Agent(0) := [Stored(1, Envelope(0, 0), 0.0)]], map[])
  {
    var empty := Memory(map[], map[]);
    assert PurgeMemory(empty, TIGHT, 0.0) == empty && Total(empty.boxes, Size) == 0;
    assert [] + [Stored(1, Envelope(0, 0), 0.0)] == [Stored(1, Envelope(0, 0), 0.0)];
  }

  lemma MemoryForgets()
    ensures MemoryStep(Memory(map[Agent(0) := [Stored(1, Envelope(0, 0), 0.0)]], map[]), TIGHT, SECOND).0
              == Memory(map[Agent(0) := []], map[])
  {
    var stored := Stored(1, Envelope(0, 0), 0.0);
    var one := Memory(map[Agent(0) := [stored]], map[]);
    assert [stored][..0] == [];
    assert Live([stored], 2.0, 1.0) == [];
    assert PurgeMemory(one, TIGHT, 2.0) == Memory(map[Agent(0) := []], map[]);
    hide PurgeMemory, Live;
  }

  lemma MemoryHasForgotten()
    ensures MemoryStep(Memory(map[Agent(0) := []], map[]), TIGHT, Ack(Agent(0), 1)).1 == Acknowledged(false)
  {
  }

  lemma TableKeeps()
    ensures TableStep(Table([], map[]), TIGHT, FIRST).0
              == Table([Row(Agent(0), Stored(1, Envelope(0, 0), 0.0), 0)], map[])
    ensures TableStep(Table([Row(Agent(0), Stored(1, Envelope(0, 0), 0.0), 0)], map[]), TIGHT, SECOND).0
              == Table([Row(Agent(0), Stored(1, Envelope(0, 0), 0.0), 0)], map[])
    ensures TableStep(Table([Row(Agent(0), Stored(1, Envelope(0, 0), 0.0), 0)], map[]), TIGHT, Ack(Agent(0), 1)).1
              == Acknowledged(true)
  {
    var row := Row(Agent(0), Stored(1, Envelope(0, 0), 0.0), 0);
    assert [row][..0] == [];
    assert LiveRows([row], 2.0, 1.0) == [];
  }

  /** The exception is real: a refused `put` makes one backend forget what has expired, and the
      other not. */
  lemma StaleAckMayDiffer()
    ensures Monotone([FIRST, SECOND]) && forall op :: op in [FIRST, SECOND] ==> Callable(op) && Compact(op)
    ensures MemoryStep(RunMemory(TIGHT, [FIRST, SECOND]), TIGHT, Ack(Agent(0), 1)).1 == Acknowledged(false)
    ensures TableStep(RunTable(TIGHT, [FIRST, SECOND]), TIGHT, Ack(Agent(0), 1)).1 == Acknowledged(true)
  {
    var ops := [FIRST, SECOND];
    assert ops[..1] == [FIRST] && [FIRST][..0] == [];
    assert Clock([]) == 0.0 && Clock([FIRST]) == 0.0 && Clock(ops) == 2.0;
    assert Monotone([]) && Monotone([FIRST]);
    MemoryTakesFirst();
    MemoryForgets();
    MemoryHasForgotten();
    TableKeeps();
    hide MemoryStep, TableStep;
    assert RunMemory(TIGHT, [FIRST]) == MemoryStep(RunMemory(TIGHT, [FIRST][..0]), TIGHT, FIRST).0;
    assert RunTable(TIGHT, [FIRST]) == TableStep(RunTable(TIGHT, [FIRST][..0]), TIGHT, FIRST).0;
    assert RunTable(TIGHT, ops) == TableStep(RunTable(TIGHT, ops[..1]), TIGHT, SECOND).0;
    assert RunMemory(TIGHT, ops) == MemoryStep(RunMemory(TIGHT, ops[..1]), TIGHT, SECOND).0;
  }
}
