/** Which declared sizes make the mailbox backends interchangeable. */
module MailboxSizes {
  import opened Types
  import opened Mailbox
  import opened MailboxBackends
  import opened MailboxRuns
  import opened MailboxEquivalence

  /** What the two backends answer to an operation after a run. */
  ghost predicate AnswerWith(l: Limits, ops: seq<Op>, op: Op, memory: Out, table: Out) {
    && AllCallable(ops) && Callable(op)
    && AnswerTo(InMemory, l, ops, op) == memory && AnswerTo(OnTable, l, ops, op) == table
  }

  function FirstPut(e: Envelope, size: nat): Op {
    Put(Agent(0), e, Some(size), 0.0, 1)
  }

  /** One message in two empty stores that have room for it. */
  lemma AfterFirstPut(l: Limits, e: Envelope, size: nat)
    requires l.ttl > 0.0 && l.maxMessages >= 1 && size <= l.maxReceiverBytes && size <= l.maxTotalBytes
    ensures AllCallable([FirstPut(e, size)])
    ensures RunMemory(l, [FirstPut(e, size)]).boxes == map[Agent(0) := [Stored(1, e, 0.0)]]
    ensures RunTable(l, [FirstPut(e, size)]).rows == [Row(Agent(0), Stored(1, e, 0.0), size)]
    ensures AnswerTo(OnTable, l, [], FirstPut(e, size)) == PutOut(Delivered(1))
  {
    var ops := [FirstPut(e, size)];
    var empty := Memory(map[], map[]);
    assert ops[..0] == [];
    assert PurgeMemory(empty, l, 0.0) == empty && Total(empty.boxes, Size) == 0;
    assert RunMemory(l, ops[..0]) == empty && RunTable(l, ops[..0]) == Table([], map[]);
    assert [] + [Stored(1, e, 0.0)] == [Stored(1, e, 0.0)];
  }

  lemma OneBoxWeighs(box: seq<Stored>, m: Measure)
    ensures Total(map[Agent(0) := box], m) == Weight(box, m)
  {
    hide WeightOf;
    var none: map<Agent, seq<Stored>> := map[];
    EmptyWeighsNothing(none, none.Keys, m);
    TotalUpdate(none, Agent(0), box, m);
    assert none[Agent(0) := box] == map[Agent(0) := box];
  }

  /** One box with one message, purged at once, and what it weighs. */
  lemma OneBox(m: Memory, l: Limits, e: Envelope)
    requires m.boxes == map[Agent(0) := [Stored(1, e, 0.0)]] && l.ttl > 0.0
    ensures var boxes := PurgeMemory(m, l, 0.0).boxes;
            && boxes == m.boxes && Bytes(boxes[Agent(0)]) == e.length
            && Total(boxes, Messages) == 1 && Total(boxes, Size) == e.length
  {
    hide Total;
    var box := m.boxes[Agent(0)];
    assert box[..0] == [] && Live(box, 0.0, l.ttl) == box && Bytes(box) == e.length;
    OneBoxWeighs(box, Messages);
    OneBoxWeighs(box, Size);
  }

  /** One row, purged at once, and what it weighs. */
  lemma OneRow(t: Table, l: Limits, e: Envelope, size: nat)
    requires t.rows == [Row(Agent(0), Stored(1, e, 0.0), size)] && l.ttl > 0.0
    ensures LiveRows(t.rows, 0.0, l.ttl) == t.rows && RowsOf(t.rows, Agent(0)) == [Stored(1, e, 0.0)]
    ensures SumBytes(t.rows, None) == SumBytes(t.rows, Some(Agent(0))) == size
  {
    assert t.rows[..0] == [];
  }

  lemma StatsOfOne(m: Memory, t: Table, l: Limits, e: Envelope, size: nat)
    requires m.boxes == map[Agent(0) := [Stored(1, e, 0.0)]] && t.rows == [Row(Agent(0), Stored(1, e, 0.0), size)]
    requires l.ttl > 0.0
    ensures MemoryStep(m, l, PendingStats(0.0)).1 == Stats(1, e.length)
    ensures TableStep(t, l, PendingStats(0.0)).1 == Stats(1, size)
  {
    hide Total, LiveRows, SumBytes, PurgeMemory;
    OneBox(m, l, e);
    OneRow(t, l, e, size);
  }

  /** The in-memory store counts the compact length, the table the size it was given. */
  lemma StatsAfterFirstPut(l: Limits, e: Envelope, size: nat)
    requires l.ttl > 0.0 && l.maxMessages >= 1 && size <= l.maxReceiverBytes && size <= l.maxTotalBytes
    ensures AnswerWith(l, [FirstPut(e, size)], PendingStats(0.0), Stats(1, e.length), Stats(1, size))
  {
    var ops := [FirstPut(e, size)];
    hide RunMemory, RunTable, MemoryStep, TableStep, AllCallable;
    AfterFirstPut(l, e, size);
    StatsOfOne(RunMemory(l, ops), RunTable(l, ops), l, e, size);
  }

  /** After a run under a size policy the two backends answer an operation alike. */
  ghost predicate AlikeUnder(policy: Envelope -> nat, l: Limits, ops: seq<Op>, op: Op) {
    Monotone(ops + [op]) && AllCallable(ops) && Callable(op) && SizedBy(policy, ops + [op])
    && !Stale(RunMemory(l, ops), l, op, Clock(ops))
    ==> AnswerTo(InMemory, l, ops, op) == AnswerTo(OnTable, l, ops, op)
  }

  /** The backends answer alike on all runs under a size policy if and only if it gives every
      envelope its compact length. */
  lemma CompactIsExact(policy: Envelope -> nat)
    ensures (forall l, ops, op :: AlikeUnder(policy, l, ops, op)) <==> forall e: Envelope :: policy(e) == e.length
  {
    hide Stale, RunMemory, Monotone, AnswerTo;
    if forall e: Envelope :: policy(e) == e.length {
      forall l, ops, op ensures AlikeUnder(policy, l, ops, op) {
        if Monotone(ops + [op]) && AllCallable(ops) && Callable(op) && SizedBy(policy, ops + [op])
           && !Stale(RunMemory(l, ops), l, op, Clock(ops)) {
          forall o | o in ops + [op] ensures Compact(o) && Callable(o) {
          }
          BackendsAnswerAlike(l, ops, op);
        }
      }
    } else {
      var e: Envelope :| policy(e) != e.length;
      UnlikeUnder(policy, e);
    }
  }

  lemma UnlikeUnder(policy: Envelope -> nat, e: Envelope)
    requires policy(e) != e.length
    ensures exists l, ops, op :: !AlikeUnder(policy, l, ops, op)
  {
    var size := policy(e);
    var l := Limits(1.0, 0, 1, size, size);
    var ops := [FirstPut(e, size)];
    var op := PendingStats(0.0);
    hide FirstPut, Monotone, Clock, AnswerWith, AlikeUnder, SizedBy;
    FirstPutFits(policy, e, op);
    StatsAfterFirstPut(l, e, size);
    UnlikeAt(policy, l, ops, op, Stats(1, e.length), Stats(1, size));
  }

  lemma UnlikeAt(policy: Envelope -> nat, l: Limits, ops: seq<Op>, op: Op, memory: Out, table: Out)
    requires Monotone(ops + [op]) && SizedBy(policy, ops + [op]) && op.PendingStats?
    requires AnswerWith(l, ops, op, memory, table) && memory != table
    ensures !AlikeUnder(policy, l, ops, op)
  {
    hide AnswerTo, RunMemory, SizedBy, Monotone, Clock;
  }

  lemma FirstPutFits(policy: Envelope -> nat, e: Envelope, op: Op)
    requires op == PendingStats(0.0)
    ensures Monotone([FirstPut(e, policy(e))] + [op]) && SizedBy(policy, [FirstPut(e, policy(e))] + [op])
  {
    var first := FirstPut(e, policy(e));
    assert ([first] + [op])[..1] == [first] && [first][..0] == [];
    assert Monotone([]) && Clock([]) == 0.0 && Monotone([first]);
  }

  function SecondPut(e: Envelope, size: nat): Op {
    Put(Agent(0), e, Some(size), 0.0, 2)
  }

  lemma MemoryHasRoom(m: Memory, l: Limits, e: Envelope, size: nat)
    requires m.boxes == map[Agent(0) := [Stored(1, e, 0.0)]] && l.ttl > 0.0 && l.maxMessages >= 2
    requires e.length + size <= l.maxReceiverBytes && e.length + size <= l.maxTotalBytes
    ensures MemoryStep(m, l, SecondPut(e, size)).1 == PutOut(Delivered(2))
  {
    hide Total, PurgeMemory, Bytes;
    OneBox(m, l, e);
    var boxes := PurgeMemory(m, l, 0.0).boxes;
    assert Box(boxes, Agent(0)) == boxes[Agent(0)] == [Stored(1, e, 0.0)];
    assert Overflow(l, 1, e.length, e.length, size) == None;
  }

  lemma TableHasNoRoom(s: Table, l: Limits, e: Envelope, size: nat)
    requires s.rows == [Row(Agent(0), Stored(1, e, 0.0), size)] && l.ttl > 0.0 && l.maxMessages >= 2
    requires 2 * size > l.maxReceiverBytes
    ensures TableStep(s, l, SecondPut(e, size)).1 == PutOut(CapacityExceeded(ReceiverBytes))
  {
    OneRow(s, l, e, size);
    hide LiveRows, RowsOf, SumBytes;
  }

  lemma SecondPutAnswers(l: Limits, e: Envelope, size: nat)
    requires l.ttl > 0.0 && l.maxMessages >= 2 && size <= l.maxReceiverBytes && size <= l.maxTotalBytes
    requires e.length + size <= l.maxReceiverBytes < 2 * size && e.length + size <= l.maxTotalBytes
    ensures AnswerWith(l, [FirstPut(e, size)], SecondPut(e, size),
                       PutOut(Delivered(2)), PutOut(CapacityExceeded(ReceiverBytes)))
  {
    var ops := [FirstPut(e, size)];
    assert Callable(SecondPut(e, size));
    hide RunMemory, RunTable, MemoryStep, TableStep, AllCallable, FirstPut, SecondPut;
    AfterFirstPut(l, e, size);
    MemoryHasRoom(RunMemory(l, ops), l, e, size);
    TableHasNoRoom(RunTable(l, ops), l, e, size);
  }

  /** A size with any space in it, such as the relay declares: it takes two messages to make the
      table refuse what the in-memory store accepts. */
  lemma SpacedSizesRefuse(e: Envelope, spaces: nat)
    requires spaces >= 1
    ensures var size := e.length + spaces;
            var l := Limits(1.0, 0, 2, 2 * size - 1, 2 * size - 1);
            AnswerWith(l, [FirstPut(e, size)], SecondPut(e, size),
                       PutOut(Delivered(2)), PutOut(CapacityExceeded(ReceiverBytes)))
  {
    hide AnswerWith, FirstPut, SecondPut;
    var size := e.length + spaces;
    SecondPutAnswers(Limits(1.0, 0, 2, 2 * size - 1, 2 * size - 1), e, size);
  }
}
