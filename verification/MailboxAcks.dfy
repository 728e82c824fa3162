/** Acknowledging a delivery that may have expired: what each backend answers depends on whether it
    has purged since, and the backends differ exactly when one has and the other has not. */
module MailboxAcks {
  import opened Mailbox
  import opened MailboxPage
  import opened MailboxBackends
  import opened MailboxRows
  import opened MailboxRuns
  import opened MailboxWalks

  /** Operation `i` of the run has put a message, and this backend has taken it. */
  ghost predicate Took(b: Backend, l: Limits, ops: seq<Op>, i: nat)
    requires Runnable(b, ops) && i < |ops|
  {
    ops[i].Put? && AnswerAt(b, l, ops, i) == PutOut(Delivered(ops[i].id))
  }

  /** The operation is not an acknowledgement of that message. */
  predicate Spares(op: Op, x: Op)
    requires x.Put?
  {
    op.Ack? ==> op.receiver != x.receiver || op.id != x.id
  }

  ghost predicate Unacknowledged(ops: seq<Op>, i: nat, k: nat)
    requires i < |ops| && ops[i].Put? && k <= |ops|
  {
    forall j :: i < j < k ==> Spares(ops[j], ops[i])
  }

  /** Operation `j` has purged for good: the in-memory store whenever it stores or reads, the table
      unless it refuses to store. */
  ghost predicate Purges(b: Backend, l: Limits, ops: seq<Op>, j: nat)
    requires Runnable(b, ops) && j < |ops|
  {
    ops[j].Fetch? || ops[j].PendingStats? || (ops[j].Put? && (b.InMemory? || Took(b, l, ops, j)))
  }

  /** The backend has purged, since it took message `i`, at a time when that had expired. */
  ghost predicate Dropped(b: Backend, l: Limits, ops: seq<Op>, i: nat, k: nat)
    requires Runnable(b, ops) && i < |ops| && ops[i].Put? && k <= |ops|
  {
    exists j :: i < j < k && Purges(b, l, ops, j) && TimeOf(ops[j], 0.0) - ops[i].now >= l.ttl
  }

  /** What an operation does to a message that is held, other than acknowledging it. */
  lemma MemoryKeeps(m: Memory, l: Limits, op: Op, x: Op)
    requires Callable(op) && x.Put? && Spares(op, x) && (op.Put? ==> op.id != x.id)
    ensures Message(x) in Box(MemoryStep(m, l, op).0.boxes, x.receiver) <==>
              Message(x) in Box(m.boxes, x.receiver)
              && (op.Fetch? || op.PendingStats? || op.Put? ==> TimeOf(op, 0.0) - x.now < l.ttl)
  {
    hide Live, PurgeMemory, Total, WithoutId, Bytes;
    match op
    case AllowSend(_, _) =>
    case Ack(_, id) =>
      WithoutIdKeeps(Box(m.boxes, x.receiver), id, Message(x));
      WithoutIdFinds(Box(m.boxes, op.receiver), id);
    case _ => LiveBoxKeeps(m, l, op.now, x);
  }

  lemma LiveBoxKeeps(m: Memory, l: Limits, now: real, x: Op)
    requires x.Put?
    ensures Message(x) in Box(PurgeMemory(m, l, now).boxes, x.receiver) <==>
              Message(x) in Box(m.boxes, x.receiver) && now - x.now < l.ttl
  {
    BoxPurged(m, l, now, x.receiver);
    LiveThins(Box(m.boxes, x.receiver), now, l.ttl);
    hide Live, PurgeMemory, Box;
  }

  lemma {:induction false} WithoutIdKeeps(box: seq<Stored>, id: nat, x: Stored)
    ensures x in WithoutId(box, id) <==> x in box && x.id != id
  {
    if box != [] {
      var n := |box| - 1;
      assert box == box[..n] + [box[n]];
      WithoutIdKeeps(box[..n], id, x);
    }
  }

  lemma TableKeeps(s: Table, l: Limits, op: Op, x: Op)
    requires x.Put? && Spares(op, x) && (op.Put? ==> op.id != x.id)
    ensures Message(x) in RowsOf(TableStep(s, l, op).0.rows, x.receiver) <==>
              Message(x) in RowsOf(s.rows, x.receiver)
              && (op.Fetch? || op.PendingStats? || (op.Put? && TableStep(s, l, op).1 == PutOut(Delivered(op.id)))
                  ==> TimeOf(op, 0.0) - x.now < l.ttl)
  {
    hide Live, LiveRows, RowsOf, SumBytes, WithoutId, WithoutRow;
    var held := RowsOf(s.rows, x.receiver);
    match op
    case AllowSend(_, _) =>
    case Ack(receiver, id) =>
      AckRows(s.rows, receiver, id, x.receiver);
      WithoutIdKeeps(held, id, Message(x));
    case Put(receiver, envelope, size, now, id) =>
      LiveRowsKeep(s.rows, l, now, x);
      RowsOfConcat(LiveRows(s.rows, now, l.ttl), Row(receiver, Message(op), SizeOf(envelope, size)), x.receiver);
    case _ =>
      LiveRowsKeep(s.rows, l, op.now, x);
  }

  lemma LiveRowsKeep(rows: seq<Row>, l: Limits, now: real, x: Op)
    requires x.Put?
    ensures Message(x) in RowsOf(LiveRows(rows, now, l.ttl), x.receiver) <==>
              Message(x) in RowsOf(rows, x.receiver) && now - x.now < l.ttl
  {
    hide Live, LiveRows, RowsOf;
    RowsOfLive(rows, x.receiver, now, l.ttl);
    LiveThins(RowsOf(rows, x.receiver), now, l.ttl);
  }

  lemma HeldKeeps(b: Backend, l: Limits, ops: seq<Op>, k: nat, x: Op)
    requires Runnable(b, ops) && k < |ops| && x.Put? && Spares(ops[k], x) && (ops[k].Put? ==> ops[k].id != x.id)
    ensures Message(x) in HeldAt(b, l, ops, k + 1, x.receiver) <==>
              Message(x) in HeldAt(b, l, ops, k, x.receiver)
              && (Purges(b, l, ops, k) ==> TimeOf(ops[k], 0.0) - x.now < l.ttl)
  {
    hide MemoryStep, TableStep;
    RunnablePrefix(b, ops, k);
    RunnablePrefix(b, ops, k + 1);
    assert ops[..k + 1][..k] == ops[..k];
    if b.InMemory? {
      MemoryKeeps(RunMemory(l, ops[..k]), l, ops[k], x);
    } else {
      TableKeeps(RunTable(l, ops[..k]), l, ops[k], x);
    }
  }

  lemma TakenIsHeld(b: Backend, l: Limits, ops: seq<Op>, i: nat)
    requires Runnable(b, ops) && i < |ops| && Took(b, l, ops, i)
    ensures Message(ops[i]) in HeldAt(b, l, ops, i + 1, ops[i].receiver)
  {
    RunnablePrefix(b, ops, i);
    RunnablePrefix(b, ops, i + 1);
    assert ops[..i + 1][..i] == ops[..i];
    var op := ops[i];
    if b.OnTable? {
      RowsOfConcat(LiveRows(RunTable(l, ops[..i]).rows, op.now, l.ttl),
                   Row(op.receiver, Message(op), SizeOf(op.envelope, op.size)), op.receiver);
    }
    hide RunMemory, RunTable, Live, LiveRows, RowsOf, PurgeMemory, WeightOf;
  }

  lemma DroppedStep(b: Backend, l: Limits, ops: seq<Op>, i: nat, k: nat)
    requires Runnable(b, ops) && i < k < |ops| && ops[i].Put?
    ensures Dropped(b, l, ops, i, k + 1) <==>
              Dropped(b, l, ops, i, k) || (Purges(b, l, ops, k) && TimeOf(ops[k], 0.0) - ops[i].now >= l.ttl)
  {
    hide AnswerAt;
  }

  /** A message that was taken and not acknowledged is held until the first purge after its time. */
  lemma {:induction false} HeldUntilPurged(b: Backend, l: Limits, ops: seq<Op>, i: nat, k: nat)
    requires Runnable(b, ops) && FreshIds(ops) && i < k <= |ops| && ops[i].Put? && Took(b, l, ops, i)
    requires Unacknowledged(ops, i, k)
    ensures Message(ops[i]) in HeldAt(b, l, ops, k, ops[i].receiver) <==> !Dropped(b, l, ops, i, k)
    decreases k
  {
    hide HeldAt, AnswerAt, Runnable, Took, Purges;
    if k == i + 1 {
      TakenIsHeld(b, l, ops, i);
    } else {
      assert Spares(ops[k - 1], ops[i]) && (ops[k - 1].Put? ==> ops[k - 1].id != ops[i].id);
      assert Unacknowledged(ops, i, k - 1);
      hide Dropped, FreshIds, Unacknowledged, Spares;
      HeldUntilPurged(b, l, ops, i, k - 1);
      HeldKeeps(b, l, ops, k - 1, ops[i]);
      DroppedStep(b, l, ops, i, k - 1);
    }
  }

  /** A backend finds a delivery to acknowledge exactly when it holds a message with its id. */
  lemma AckFinds(b: Backend, l: Limits, ops: seq<Op>, r: Agent, id: nat)
    requires Runnable(b, ops)
    ensures AnswerTo(b, l, ops, Ack(r, id)) == Acknowledged(Contains(Held(b, l, ops, r), id))
  {
    hide RunMemory, RunTable, MemoryStep, TableStep, Box, RowsOf, Contains;
    if b.InMemory? {
      MemoryFinds(RunMemory(l, ops), l, r, id);
    } else {
      TableFinds(RunTable(l, ops), l, r, id);
    }
  }

  lemma MemoryFinds(m: Memory, l: Limits, r: Agent, id: nat)
    ensures MemoryStep(m, l, Ack(r, id)).1 == Acknowledged(Contains(Box(m.boxes, r), id))
  {
    hide WithoutId, Contains;
    WithoutIdFinds(Box(m.boxes, r), id);
  }

  lemma TableFinds(s: Table, l: Limits, r: Agent, id: nat)
    ensures TableStep(s, l, Ack(r, id)).1 == Acknowledged(Contains(RowsOf(s.rows, r), id))
  {
    hide WithoutId, WithoutRow, RowsOf, Contains;
    WithoutIdFinds(RowsOf(s.rows, r), id);
    WithoutRowFinds(s.rows, r, id);
  }

  lemma HeldById(b: Backend, l: Limits, ops: seq<Op>, i: nat)
    requires Runnable(b, ops) && FreshIds(ops) && i < |ops| && ops[i].Put?
    ensures Contains(Held(b, l, ops, ops[i].receiver), ops[i].id) <==>
              Message(ops[i]) in Held(b, l, ops, ops[i].receiver)
  {
    var held := Held(b, l, ops, ops[i].receiver);
    hide Held, HeldAt, Runnable;
    HeldAtEnd(b, l, ops, ops[i].receiver);
    IdsStayDistinct(b, l, ops, |ops|, ops[i].receiver);
    assert ops[..|ops|] == ops;
    if Contains(held, ops[i].id) {
      var j :| 0 <= j < |held| && held[j].id == ops[i].id;
      assert WasPut(ops, held[j]);
      var k :| 0 <= k < |ops| && ops[k].Put? && held[j] == Message(ops[k]);
    }
  }

  /** What a backend answers to the acknowledgement of a message that it has taken. */
  lemma AckExactly(b: Backend, l: Limits, ops: seq<Op>, i: nat)
    requires Runnable(b, ops) && FreshIds(ops) && i < |ops| && ops[i].Put? && Took(b, l, ops, i)
    requires Unacknowledged(ops, i, |ops|)
    ensures AnswerTo(b, l, ops, Ack(ops[i].receiver, ops[i].id)) == Acknowledged(!Dropped(b, l, ops, i, |ops|))
  {
    hide AnswerTo, Held, FreshIds, Dropped, Took, Unacknowledged, HeldAt;
    AckFinds(b, l, ops, ops[i].receiver, ops[i].id);
    HeldById(b, l, ops, i);
    HeldUntilPurged(b, l, ops, i, |ops|);
    HeldAtEnd(b, l, ops, ops[i].receiver);
  }

  lemma HeldAtEnd(b: Backend, l: Limits, ops: seq<Op>, r: Agent)
    requires Runnable(b, ops)
    ensures HeldAt(b, l, ops, |ops|, r) == Held(b, l, ops, r)
  {
    assert ops[..|ops|] == ops;
  }

  /** The backends answer an acknowledgement differently exactly when the in-memory store has purged
      since the message expired and the table has not; then it is the table that still finds it. */
  lemma AcksDifferExactly(l: Limits, ops: seq<Op>, i: nat)
    requires AllCallable(ops) && FreshIds(ops) && i < |ops| && ops[i].Put? && Unacknowledged(ops, i, |ops|)
    requires Took(InMemory, l, ops, i) && Took(OnTable, l, ops, i)
    ensures var ack := Ack(ops[i].receiver, ops[i].id);
            && (AnswerTo(InMemory, l, ops, ack) != AnswerTo(OnTable, l, ops, ack) <==>
                  Dropped(InMemory, l, ops, i, |ops|) && !Dropped(OnTable, l, ops, i, |ops|))
            && (AnswerTo(InMemory, l, ops, ack) == Acknowledged(true) ==>
                 AnswerTo(OnTable, l, ops, ack) == Acknowledged(true))
  {
    AckExactly(InMemory, l, ops, i);
    AckExactly(OnTable, l, ops, i);
    hide AnswerTo, AnswerAt, FreshIds;
    assert Dropped(OnTable, l, ops, i, |ops|) ==> Dropped(InMemory, l, ops, i, |ops|) by {
      if Dropped(OnTable, l, ops, i, |ops|) {
        var j :| i < j < |ops| && Purges(OnTable, l, ops, j) && TimeOf(ops[j], 0.0) - ops[i].now >= l.ttl;
        assert Purges(InMemory, l, ops, j);
      }
    }
  }

  /** Under a clock that never goes back it is the last purge that decides. */
  lemma LastPurgeDecides(b: Backend, l: Limits, ops: seq<Op>, i: nat, j: nat)
    requires Runnable(b, ops) && Monotone(ops) && i < j < |ops| && ops[i].Put?
    requires Purges(b, l, ops, j) && forall k :: j < k < |ops| ==> !Purges(b, l, ops, k)
    ensures Dropped(b, l, ops, i, |ops|) <==> TimeOf(ops[j], 0.0) - ops[i].now >= l.ttl
  {
    hide AnswerAt;
    if Dropped(b, l, ops, i, |ops|) {
      var k :| i < k < |ops| && Purges(b, l, ops, k) && TimeOf(ops[k], 0.0) - ops[i].now >= l.ttl;
      assert k <= j;
      ReadingsInOrder(ops, k, j);
    }
  }

  lemma ReadingsInOrder(ops: seq<Op>, j: nat, k: nat)
    requires Monotone(ops) && j <= k < |ops| && !ops[j].Ack? && !ops[k].Ack?
    ensures TimeOf(ops[j], 0.0) <= TimeOf(ops[k], 0.0)
  {
    MonotonePrefix(ops, k + 1);
    MonotonePrefix(ops[..k + 1], j + 1);
    assert ops[..k + 1][..j + 1] == ops[..j + 1];
    hide Monotone;
    assert Clock(ops[..k + 1]) == TimeOf(ops[k], 0.0) && Clock(ops[..j + 1]) == TimeOf(ops[j], 0.0);
  }

  // What an acknowledgement does

  /** Nothing with this id is held. */
  ghost predicate Gone(held: seq<Stored>, id: nat) {
    forall x :: x in held ==> x.id != id
  }

  lemma AckRemoves(b: Backend, l: Limits, ops: seq<Op>, k: nat)
    requires Runnable(b, ops) && k < |ops| && ops[k].Ack?
    ensures Gone(HeldAt(b, l, ops, k + 1, ops[k].receiver), ops[k].id)
  {
    hide MemoryStep, TableStep, Gone;
    RunnablePrefix(b, ops, k);
    RunnablePrefix(b, ops, k + 1);
    assert ops[..k + 1][..k] == ops[..k];
    if b.InMemory? {
      MemoryRemoves(RunMemory(l, ops[..k]), l, ops[k].receiver, ops[k].id);
    } else {
      TableRemoves(RunTable(l, ops[..k]), l, ops[k].receiver, ops[k].id);
    }
  }

  lemma MemoryRemoves(m: Memory, l: Limits, r: Agent, id: nat)
    ensures Gone(Box(MemoryStep(m, l, Ack(r, id)).0.boxes, r), id)
  {
    forall x { WithoutIdKeeps(Box(m.boxes, r), id, x); }
    WithoutIdFinds(Box(m.boxes, r), id);
    hide WithoutId, Contains;
  }

  lemma TableRemoves(s: Table, l: Limits, r: Agent, id: nat)
    ensures Gone(RowsOf(TableStep(s, l, Ack(r, id)).0.rows, r), id)
  {
    AckRows(s.rows, r, id, r);
    forall x { WithoutIdKeeps(RowsOf(s.rows, r), id, x); }
    hide WithoutId, WithoutRow, RowsOf;
  }

  lemma GoneMoves(before: seq<Stored>, after: seq<Stored>, op: Op, r: Agent, id: nat)
    requires Gone(before, id) && Moved(before, after, op, r) && (op.Put? ==> op.id != id)
    ensures Gone(after, id)
  {
    if !Thinner(after, before) {
      var thinned :| Thinner(thinned, before) && after == thinned + [Message(op)];
    }
  }

  lemma {:induction false} StaysGone(b: Backend, l: Limits, ops: seq<Op>, i: nat, k: nat, n: nat)
    requires Runnable(b, ops) && FreshIds(ops) && i < k < n <= |ops| && ops[i].Put?
    requires ops[k] == Ack(ops[i].receiver, ops[i].id)
    ensures Gone(HeldAt(b, l, ops, n, ops[i].receiver), ops[i].id)
  {
    hide HeldAt, Gone, Moved;
    if n == k + 1 {
      AckRemoves(b, l, ops, k);
    } else {
      assert ops[n - 1].Put? ==> ops[n - 1].id != ops[i].id;
      hide FreshIds, Runnable;
      StaysGone(b, l, ops, i, k, n - 1);
      HeldMoves(b, l, ops, n - 1, ops[i].receiver);
      GoneMoves(HeldAt(b, l, ops, n - 1, ops[i].receiver), HeldAt(b, l, ops, n, ops[i].receiver), ops[n - 1],
                ops[i].receiver, ops[i].id);
    }
  }

  /** A message that has been put and acknowledged is on no later page, and no later acknowledgement
      finds it, in either backend. */
  lemma AcknowledgedIsGone(b: Backend, l: Limits, ops: seq<Op>, i: nat, k: nat, n: nat)
    requires Runnable(b, ops) && FreshIds(ops) && i < k < n < |ops| && ops[i].Put?
    requires ops[k] == Ack(ops[i].receiver, ops[i].id)
    ensures ops[n].Fetch? && ops[n].receiver == ops[i].receiver && ops[n].limit >= 1 ==>
              && AnswerAt(b, l, ops, n).PageOut?
              && forall x :: x in AnswerAt(b, l, ops, n).page.items ==> x.id != ops[i].id
    ensures ops[n] == Ack(ops[i].receiver, ops[i].id) ==> AnswerAt(b, l, ops, n) == Acknowledged(false)
  {
    StaysGone(b, l, ops, i, k, n);
    if ops[n].Fetch? && ops[n].receiver == ops[i].receiver && ops[n].limit >= 1 {
      FetchServesNextPage(b, l, ops, n);
      GonePage(b, l, ops, n, ops[i].id);
    }
    if ops[n] == Ack(ops[i].receiver, ops[i].id) {
      RunnablePrefix(b, ops, n);
      AckFinds(b, l, ops[..n], ops[i].receiver, ops[i].id);
      hide AnswerTo, Held;
    }
  }

  lemma GonePage(b: Backend, l: Limits, ops: seq<Op>, n: nat, id: nat)
    requires Runnable(b, ops) && FreshIds(ops) && n < |ops| && ops[n].Fetch? && ops[n].limit >= 1
    requires Gone(HeldAt(b, l, ops, n, ops[n].receiver), id)
    ensures forall x :: x in NextPage(PendingAt(b, l, ops, n), ops[n].limit, ops[n].cursor).items ==> x.id != id
  {
    LiveThins(HeldAt(b, l, ops, n, ops[n].receiver), ops[n].now, l.ttl);
    PendingIsDistinct(b, l, ops, n);
    hide HeldAt, NextPage, Live;
    NextPageIsPage(PendingAt(b, l, ops, n), ops[n].limit, ops[n].cursor);
  }
}
