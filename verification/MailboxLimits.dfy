/** Capacity and rate limits, in every reachable state of both backends. */
module MailboxLimits {
  import opened Types
  import opened Mailbox
  import opened MailboxBackends
  import opened MailboxRows
  import opened MailboxRuns
  import opened MailboxEquivalence

  ghost predicate MemoryWithin(m: Memory, l: Limits) {
    && (forall r :: |Box(m.boxes, r)| <= l.maxMessages && Bytes(Box(m.boxes, r)) <= l.maxReceiverBytes)
    && Total(m.boxes, Size) <= l.maxTotalBytes
  }

  ghost predicate TableWithin(s: Table, l: Limits) {
    && (forall r :: |RowsOf(s.rows, r)| <= l.maxMessages && SumBytes(s.rows, Some(r)) <= l.maxReceiverBytes)
    && SumBytes(s.rows, None) <= l.maxTotalBytes
  }

  lemma {:induction false} LiveShrinks(box: seq<Stored>, now: real, ttl: real)
    ensures |Live(box, now, ttl)| <= |box| && Bytes(Live(box, now, ttl)) <= Bytes(box)
  {
    if box != [] {
      var n := |box| - 1;
      assert box == box[..n] + [box[n]];
      LiveShrinks(box[..n], now, ttl);
      LiveConcat(box[..n], box[n], now, ttl);
      BytesConcat(box[..n], box[n]);
      BytesConcat(Live(box[..n], now, ttl), box[n]);
      hide Live, Bytes;
    }
  }

  lemma {:induction false} WithoutIdShrinks(box: seq<Stored>, id: nat)
    ensures |WithoutId(box, id)| <= |box| && Bytes(WithoutId(box, id)) <= Bytes(box)
  {
    if box != [] {
      var n := |box| - 1;
      assert box == box[..n] + [box[n]];
      WithoutIdShrinks(box[..n], id);
      WithoutIdConcat(box[..n], box[n], id);
      BytesConcat(box[..n], box[n]);
      BytesConcat(WithoutId(box[..n], id), box[n]);
      hide WithoutId, Bytes;
    }
  }

  lemma {:induction false} WeightShrinks(a: map<Agent, seq<Stored>>, b: map<Agent, seq<Stored>>, keys: set<Agent>)
    requires keys <= a.Keys && keys <= b.Keys
    requires forall k :: k in keys ==> Bytes(b[k]) <= Bytes(a[k])
    ensures WeightOf(b, keys, Size) <= WeightOf(a, keys, Size)
  {
    if keys != {} {
      var k :| k in keys;
      WeightWithout(a, keys, k, Size);
      WeightWithout(b, keys, k, Size);
      WeightShrinks(a, b, keys - {k});
    }
  }

  lemma PurgedBox(m: Memory, l: Limits, now: real, r: Agent)
    ensures Box(PurgeMemory(m, l, now).boxes, r) == Live(Box(m.boxes, r), now, l.ttl)
    ensures |Box(PurgeMemory(m, l, now).boxes, r)| <= |Box(m.boxes, r)|
    ensures Bytes(Box(PurgeMemory(m, l, now).boxes, r)) <= Bytes(Box(m.boxes, r))
  {
    LiveShrinks(Box(m.boxes, r), now, l.ttl);
  }

  lemma PurgeStaysWithin(m: Memory, l: Limits, now: real)
    requires MemoryWithin(m, l)
    ensures MemoryWithin(PurgeMemory(m, l, now), l)
  {
    var p := PurgeMemory(m, l, now);
    assert p.boxes.Keys == m.boxes.Keys;
    forall r
      ensures |Box(p.boxes, r)| <= l.maxMessages && Bytes(Box(p.boxes, r)) <= l.maxReceiverBytes
      ensures r in m.boxes ==> Bytes(p.boxes[r]) <= Bytes(m.boxes[r])
    {
      PurgedBox(m, l, now, r);
      assert |Box(m.boxes, r)| <= l.maxMessages;
    }
    hide Live, Bytes, WeightOf, PurgeMemory;
    WeightShrinks(m.boxes, p.boxes, m.boxes.Keys);
  }

  /** Replacing one box by one that keeps the limits. */
  lemma BoxReplaced(m: Memory, l: Limits, r: Agent, box: seq<Stored>)
    requires MemoryWithin(m, l)
    requires |box| <= l.maxMessages && Bytes(box) <= l.maxReceiverBytes
    requires Total(m.boxes, Size) - Bytes(Box(m.boxes, r)) + Bytes(box) <= l.maxTotalBytes
    ensures MemoryWithin(m.(boxes := m.boxes[r := box]), l)
  {
    TotalUpdate(m.boxes, r, box, Size);
    hide Bytes, WeightOf;
    var boxes := m.boxes[r := box];
    forall k ensures |Box(boxes, k)| <= l.maxMessages && Bytes(Box(boxes, k)) <= l.maxReceiverBytes {
      assert |Box(m.boxes, k)| <= l.maxMessages;
    }
  }

  lemma MemoryStaysWithin(m: Memory, l: Limits, op: Op)
    requires MemoryWithin(m, l) && Callable(op) && HonestSize(op)
    ensures MemoryWithin(MemoryStep(m, l, op).0, l)
  {
    hide Bytes, WeightOf, PurgeMemory, Live, WithoutId, Sort, After;
    match op
    case AllowSend(_, _) =>
    case Fetch(_, _, _, now) => PurgeStaysWithin(m, l, now);
    case PendingStats(now) => PurgeStaysWithin(m, l, now);
    case Ack(receiver, id) =>
      var box := Box(m.boxes, receiver);
      WithoutIdShrinks(box, id);
      assert |box| <= l.maxMessages;
      BoxReplaced(m, l, receiver, WithoutId(box, id));
    case Put(receiver, envelope, size, now, id) =>
      PurgeStaysWithin(m, l, now);
      var p := PurgeMemory(m, l, now);
      var box := Box(p.boxes, receiver);
      var message := Stored(id, envelope, now);
      BytesConcat(box, message);
      if MemoryStep(m, l, op).1 == PutOut(Delivered(id)) {
        BoxReplaced(p, l, receiver, box + [message]);
      }
  }

  lemma {:induction false} LiveRowsShrink(rows: seq<Row>, now: real, ttl: real, r: Option<Agent>)
    ensures SumBytes(LiveRows(rows, now, ttl), r) <= SumBytes(rows, r)
  {
    if rows != [] {
      var n := |rows| - 1;
      assert rows == rows[..n] + [rows[n]];
      LiveRowsShrink(rows[..n], now, ttl, r);
      LiveRowsConcat(rows[..n], rows[n], now, ttl);
      SumBytesConcat(rows[..n], rows[n], r);
      SumBytesConcat(LiveRows(rows[..n], now, ttl), rows[n], r);
      hide LiveRows, SumBytes;
    }
  }

  lemma {:induction false} WithoutRowShrinks(rows: seq<Row>, receiver: Agent, id: nat, r: Option<Agent>)
    ensures SumBytes(WithoutRow(rows, receiver, id), r) <= SumBytes(rows, r)
  {
    if rows != [] {
      var n := |rows| - 1;
      assert rows == rows[..n] + [rows[n]];
      WithoutRowShrinks(rows[..n], receiver, id, r);
      WithoutRowConcat(rows[..n], rows[n], receiver, id);
      SumBytesConcat(rows[..n], rows[n], r);
      SumBytesConcat(WithoutRow(rows[..n], receiver, id), rows[n], r);
      hide WithoutRow, SumBytes;
    }
  }

  lemma LiveRowsStayWithin(s: Table, l: Limits, now: real)
    requires TableWithin(s, l)
    ensures TableWithin(s.(rows := LiveRows(s.rows, now, l.ttl)), l)
  {
    forall r
      ensures |RowsOf(LiveRows(s.rows, now, l.ttl), r)| <= l.maxMessages
      ensures SumBytes(LiveRows(s.rows, now, l.ttl), Some(r)) <= l.maxReceiverBytes
    {
      RowsOfLive(s.rows, r, now, l.ttl);
      LiveShrinks(RowsOf(s.rows, r), now, l.ttl);
      LiveRowsShrink(s.rows, now, l.ttl, Some(r));
    }
    LiveRowsShrink(s.rows, now, l.ttl, None);
  }

  lemma TableStaysWithin(s: Table, l: Limits, op: Op)
    requires TableWithin(s, l)
    ensures TableWithin(TableStep(s, l, op).0, l)
  {
    hide LiveRows, RowsOf, SumBytes, WithoutRow;
    match op
    case AllowSend(_, _) =>
    case Fetch(_, _, _, now) => LiveRowsStayWithin(s, l, now);
    case PendingStats(now) => LiveRowsStayWithin(s, l, now);
    case Ack(receiver, id) => AckStaysWithin(s, l, receiver, id);
    case Put(receiver, envelope, size, now, id) =>
      LiveRowsStayWithin(s, l, now);
      if TableStep(s, l, op).1 == PutOut(Delivered(id)) {
        var live := s.(rows := LiveRows(s.rows, now, l.ttl));
        PutStaysWithin(live, l, Row(receiver, Stored(id, envelope, now), SizeOf(envelope, size)));
      }
  }

  lemma AckStaysWithin(s: Table, l: Limits, receiver: Agent, id: nat)
    requires TableWithin(s, l)
    ensures TableWithin(s.(rows := WithoutRow(s.rows, receiver, id)), l)
  {
    hide RowsOf, SumBytes, WithoutRow, WithoutId;
    var rows := WithoutRow(s.rows, receiver, id);
    forall r ensures |RowsOf(rows, r)| <= l.maxMessages && SumBytes(rows, Some(r)) <= l.maxReceiverBytes {
      AckRows(s.rows, receiver, id, r);
      WithoutIdShrinks(RowsOf(s.rows, r), id);
      WithoutRowShrinks(s.rows, receiver, id, Some(r));
    }
    WithoutRowShrinks(s.rows, receiver, id, None);
  }

  lemma PutStaysWithin(s: Table, l: Limits, row: Row)
    requires TableWithin(s, l)
    requires Overflow(l, |RowsOf(s.rows, row.receiver)|, SumBytes(s.rows, Some(row.receiver)),
                      SumBytes(s.rows, None), row.bytes).None?
    ensures TableWithin(s.(rows := s.rows + [row]), l)
  {
    hide RowsOf, SumBytes;
    var rows := s.rows + [row];
    forall r ensures |RowsOf(rows, r)| <= l.maxMessages && SumBytes(rows, Some(r)) <= l.maxReceiverBytes {
      RowsOfConcat(s.rows, row, r);
      SumBytesConcat(s.rows, row, Some(r));
    }
    SumBytesConcat(s.rows, row, None);
  }

  /** In every reachable state each receiver's count and bytes and the total respect their limits.
      The table needs no condition; the in-memory store needs sizes that are not understated. */
  lemma {:induction false} CapacityRespected(l: Limits, ops: seq<Op>)
    requires AllCallable(ops)
    ensures TableWithin(RunTable(l, ops), l)
    ensures AllHonest(ops) ==> MemoryWithin(RunMemory(l, ops), l)
  {
    if ops != [] {
      var before := ops[..|ops| - 1];
      var last := ops[|ops| - 1];
      assert last in ops && forall op :: op in before ==> op in ops;
      CapacityRespected(l, before);
      TableStaysWithin(RunTable(l, before), l, last);
      if AllHonest(ops) {
        MemoryStaysWithin(RunMemory(l, before), l, last);
      }
    }
  }

  /** One message, of a size that its declaration understates, in an empty store that has room for
      the declared size and no more. */
  function Understated(policy: Envelope -> nat, envelope: Envelope): (Limits, seq<Op>) {
    var size := policy(envelope);
    (Limits(1.0, 0, 1, size, size), [Put(Agent(0), envelope, Some(size), 0.0, 1)])
  }

  lemma UnderstatedSizeOverflows(policy: Envelope -> nat, envelope: Envelope)
    requires policy(envelope) < envelope.length
    ensures var (l, ops) := Understated(policy, envelope);
            AllCallable(ops) && SizedBy(policy, ops) && !MemoryWithin(RunMemory(l, ops), l)
  {
    var (l, ops) := Understated(policy, envelope);
    var empty := Memory(map[], map[]);
    assert PurgeMemory(empty, l, 0.0).boxes == map[];
    assert ops[..0] == [];
    var m := RunMemory(l, ops);
    assert RunMemory(l, ops[..0]) == empty;
    assert m == MemoryStep(empty, l, ops[0]).0;
    var stored := Stored(1, envelope, 0.0);
    assert [] + [stored] == [stored];
    assert Box(m.boxes, Agent(0)) == [stored];
    BytesConcat([], stored);
  }

  /** A run of the in-memory store under a size policy keeps within the limits. */
  ghost predicate KeepsWithin(policy: Envelope -> nat, l: Limits, ops: seq<Op>) {
    AllCallable(ops) && SizedBy(policy, ops) ==> MemoryWithin(RunMemory(l, ops), l)
  }

  /** All runs under a size policy keep within all limits if and only if it never understates. */
  lemma HonestyIsExact(policy: Envelope -> nat)
    ensures (forall l, ops :: KeepsWithin(policy, l, ops)) <==> forall e: Envelope :: policy(e) >= e.length
  {
    hide MemoryWithin, RunMemory;
    if forall e: Envelope :: policy(e) >= e.length {
      forall l, ops ensures KeepsWithin(policy, l, ops) {
        if AllCallable(ops) && SizedBy(policy, ops) {
          assert AllHonest(ops);
          CapacityRespected(l, ops);
        }
      }
    } else {
      var e: Envelope :| policy(e) < e.length;
      UnderstatedSizeOverflows(policy, e);
      var (l, ops) := Understated(policy, e);
      assert !KeepsWithin(policy, l, ops);
    }
  }

  /** The counters that a backend holds after a run. */
  ghost function RatesAfter(b: Backend, l: Limits, ops: seq<Op>): Rates
    requires AllCallable(ops)
  {
    if b.InMemory? then RunMemory(l, ops).rates else RunTable(l, ops).rates
  }

  /** Whether the last operation of a run is a send that the backend allowed. */
  ghost predicate AllowedLast(b: Backend, l: Limits, ops: seq<Op>, sender: Agent)
    requires ops != [] && AllCallable(ops)
  {
    var op := ops[|ops| - 1];
    var before := ops[..|ops| - 1];
    assert op in ops && forall o :: o in before ==> o in ops;
    op.AllowSend? && op.sender == sender
    && (if b.InMemory? then MemoryStep(RunMemory(l, before), l, op).1 else TableStep(RunTable(l, before), l, op).1)
         == Allowed(true)
  }

  /** How many sends of a sender a backend has allowed in the minutes `from..to`. */
  ghost function AllowedIn(b: Backend, l: Limits, ops: seq<Op>, sender: Agent, from: int, to: int): nat
    requires AllCallable(ops)
  {
    if ops == [] then 0
    else
      var before := ops[..|ops| - 1];
      assert forall o :: o in before ==> o in ops;
      AllowedIn(b, l, before, sender, from, to)
      + if AllowedLast(b, l, ops, sender) && from <= Minute(Clock(ops)) <= to then 1 else 0
  }

  /** What one operation does to the counters that still matter. */
  lemma RatesMove(b: Backend, l: Limits, ops: seq<Op>, sender: Agent, minute: int)
    requires ops != [] && AllCallable(ops)
    requires minute >= Minute(Clock(ops))
    ensures forall o :: o in ops[..|ops| - 1] ==> o in ops
    ensures var before := Count(RatesAfter(b, l, ops[..|ops| - 1]), sender, minute);
            var after := Count(RatesAfter(b, l, ops), sender, minute);
            if AllowedLast(b, l, ops, sender) && minute == Minute(Clock(ops))
            then after == before + 1 && before < l.ratePerMinute
            else after == before
  {
    hide MemoryStep, TableStep;
    var before, op := ops[..|ops| - 1], ops[|ops| - 1];
    assert op in ops && forall o :: o in before ==> o in ops;
    if b.InMemory? {
      MemoryRatesMove(RunMemory(l, before), l, op, Clock(before), sender, minute);
    } else {
      TableRatesMove(RunTable(l, before), l, op, Clock(before), sender, minute);
    }
  }

  lemma MemoryRatesMove(m: Memory, l: Limits, op: Op, t: real, sender: Agent, minute: int)
    requires Callable(op) && minute >= Minute(TimeOf(op, t))
    ensures var (after, out) := MemoryStep(m, l, op);
            if op.AllowSend? && op.sender == sender && out == Allowed(true) && minute == Minute(op.now)
            then Count(after.rates, sender, minute) == Count(m.rates, sender, minute) + 1 <= l.ratePerMinute
            else Count(after.rates, sender, minute) == Count(m.rates, sender, minute)
  {
    hide Total, LiveBoxes, WithoutId, After, Overflow, Bytes, Minute;
  }

  lemma TableRatesMove(s: Table, l: Limits, op: Op, t: real, sender: Agent, minute: int)
    requires minute >= Minute(TimeOf(op, t))
    ensures var (after, out) := TableStep(s, l, op);
            if op.AllowSend? && op.sender == sender && out == Allowed(true) && minute == Minute(op.now)
            then Count(after.rates, sender, minute) == Count(s.rates, sender, minute) + 1 <= l.ratePerMinute
            else Count(after.rates, sender, minute) == Count(s.rates, sender, minute)
  {
    hide RowsOf, LiveRows, SumBytes, WithoutRow, After, Overflow, Minute;
  }

  lemma {:induction false} RateInvariant(b: Backend, l: Limits, ops: seq<Op>, sender: Agent, minute: int)
    requires Monotone(ops) && AllCallable(ops)
    ensures AllowedIn(b, l, ops, sender, minute, minute) <= l.ratePerMinute
    ensures minute >= Minute(Clock(ops)) ==>
              AllowedIn(b, l, ops, sender, minute, minute) == Count(RatesAfter(b, l, ops), sender, minute)
  {
    if ops != [] {
      var before := ops[..|ops| - 1];
      assert forall o :: o in before ==> o in ops;
      MinuteMonotone(Clock(before), Clock(ops));
      RateInvariant(b, l, before, sender, minute);
      if minute >= Minute(Clock(ops)) {
        RatesMove(b, l, ops, sender, minute);
      }
    }
  }

  lemma {:induction false} RangeSplits(b: Backend, l: Limits, ops: seq<Op>, sender: Agent, minute: int)
    requires AllCallable(ops)
    ensures AllowedIn(b, l, ops, sender, minute, minute + 1)
         == AllowedIn(b, l, ops, sender, minute, minute) + AllowedIn(b, l, ops, sender, minute + 1, minute + 1)
  {
    if ops != [] {
      var before := ops[..|ops| - 1];
      assert forall o :: o in before ==> o in ops;
      RangeSplits(b, l, before, sender, minute);
    }
  }

  /** How many sends a backend has allowed from `start` on and before a minute has passed. */
  ghost function AllowedWithin(b: Backend, l: Limits, ops: seq<Op>, sender: Agent, start: real): nat
    requires AllCallable(ops)
  {
    if ops == [] then 0
    else
      var before := ops[..|ops| - 1];
      assert forall o :: o in before ==> o in ops;
      AllowedWithin(b, l, before, sender, start)
      + if AllowedLast(b, l, ops, sender) && start <= Clock(ops) < start + 60.0 then 1 else 0
  }

  lemma {:induction false} WindowInTwoMinutes(b: Backend, l: Limits, ops: seq<Op>, sender: Agent, start: real)
    requires AllCallable(ops)
    ensures AllowedWithin(b, l, ops, sender, start) <= AllowedIn(b, l, ops, sender, Minute(start), Minute(start) + 1)
  {
    if ops != [] {
      var before := ops[..|ops| - 1];
      assert forall o :: o in before ==> o in ops;
      WindowInTwoMinutes(b, l, before, sender, start);
      if start <= Clock(ops) < start + 60.0 {
        MinuteMonotone(start, Clock(ops));
        MinuteMonotone(Clock(ops), start + 60.0);
        assert (start + 60.0) / 60.0 == start / 60.0 + 1.0;
      }
    }
  }

  lemma MinuteIs(t: real, k: int)
    ensures Minute(t) == k <==> 60.0 * k as real <= t < 60.0 * k as real + 60.0
  {
    assert k as real <= t / 60.0 < k as real + 1.0 <==> 60.0 * k as real <= t < 60.0 * k as real + 60.0;
  }

  /** The sends of a minute of the clock, which begins at `60 * k`. */
  lemma {:induction false} MinuteIsWindow(b: Backend, l: Limits, ops: seq<Op>, sender: Agent, k: int)
    requires AllCallable(ops)
    ensures AllowedWithin(b, l, ops, sender, 60.0 * k as real) == AllowedIn(b, l, ops, sender, k, k)
  {
    if ops != [] {
      var before := ops[..|ops| - 1];
      assert forall o :: o in before ==> o in ops;
      MinuteIsWindow(b, l, before, sender, k);
      MinuteIs(Clock(ops), k);
      hide Minute;
    }
  }

  /** A send is allowed exactly as long as fewer sends of its sender than the limit have been allowed in
      the same minute of the clock, the one that began at `60 * k` seconds. */
  lemma AllowedExactly(b: Backend, l: Limits, ops: seq<Op>, sender: Agent, now: real, k: int)
    requires Monotone(ops) && AllCallable(ops) && Clock(ops) <= now
    requires 60.0 * k as real <= now < 60.0 * k as real + 60.0
    ensures AnswerTo(b, l, ops, AllowSend(sender, now))
         == Allowed(AllowedWithin(b, l, ops, sender, 60.0 * k as real) < l.ratePerMinute)
  {
    MinuteIs(now, k);
    MinuteMonotone(Clock(ops), now);
    MinuteIsWindow(b, l, ops, sender, k);
    RateInvariant(b, l, ops, sender, k);
    hide Minute, RunMemory, RunTable, AllowedIn, AllowedWithin, Monotone, Clock;
    AnswerByCount(b, l, ops, sender, now);
  }

  lemma AnswerByCount(b: Backend, l: Limits, ops: seq<Op>, sender: Agent, now: real)
    requires AllCallable(ops)
    ensures AnswerTo(b, l, ops, AllowSend(sender, now))
         == Allowed(Count(RatesAfter(b, l, ops), sender, Minute(now)) < l.ratePerMinute)
  {
    hide RunMemory, RunTable, Minute;
  }

  /** Rate: no sender gets more than the limit in a minute of the clock, nor more than twice the
      limit in any sixty seconds. */
  lemma RateRespected(b: Backend, l: Limits, ops: seq<Op>, sender: Agent, minute: int, start: real)
    requires Monotone(ops) && AllCallable(ops)
    ensures AllowedWithin(b, l, ops, sender, 60.0 * minute as real) <= l.ratePerMinute
    ensures AllowedWithin(b, l, ops, sender, start) <= 2 * l.ratePerMinute
  {
    MinuteIsWindow(b, l, ops, sender, minute);
    RateInvariant(b, l, ops, sender, minute);
    RateInvariant(b, l, ops, sender, Minute(start));
    RateInvariant(b, l, ops, sender, Minute(start) + 1);
    RangeSplits(b, l, ops, sender, Minute(start));
    WindowInTwoMinutes(b, l, ops, sender, start);
  }

  /** A purge keeps the counters of this minute of the clock and of the one before it. */
  lemma CountersKept(rates: Rates, now: real, sender: Agent, minute: int, k: int)
    requires 60.0 * k as real <= now < 60.0 * k as real + 60.0
    ensures Count(RecentRates(rates, now), sender, minute) == if minute >= k - 1 then Count(rates, sender, minute)
              else 0
  {
    MinuteIs(now, k);
    hide Minute;
  }
}
