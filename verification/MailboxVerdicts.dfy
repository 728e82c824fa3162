/** Why a mailbox takes a message or refuses it, and what it keeps. */
module MailboxVerdicts {
  import opened Types
  import opened Mailbox
  import opened MailboxBackends
  import opened MailboxRows

  /** The verdict on a message of `size` bytes, when the receiver has `count` messages of `bytes` bytes
      pending and everybody together `total` bytes: the first limit that it would exceed. */
  predicate VerdictIs(out: Out, l: Limits, id: nat, count: nat, bytes: nat, total: nat, size: nat) {
    && (out == PutOut(CapacityExceeded(ReceiverMessages)) <==> l.maxMessages <= count)
    && (out == PutOut(CapacityExceeded(ReceiverBytes)) <==> count < l.maxMessages && l.maxReceiverBytes < bytes + size)
    && (out == PutOut(CapacityExceeded(TotalBytes)) <==>
          count < l.maxMessages && bytes + size <= l.maxReceiverBytes && l.maxTotalBytes < total + size)
    && (out == PutOut(Delivered(id)) <==>
          count < l.maxMessages && bytes + size <= l.maxReceiverBytes && total + size <= l.maxTotalBytes)
  }

  /** The in-memory store counts what is pending in compact bytes, and the message as it is declared. */
  lemma MemoryVerdict(m: Memory, l: Limits, op: Op)
    requires op.Put?
    ensures var box := Live(Box(m.boxes, op.receiver), op.now, l.ttl);
            var size := if op.size.Some? then op.size.value else op.envelope.length;
            var (after, out) := MemoryStep(m, l, op);
            && VerdictIs(out, l, op.id, |box|, Bytes(box), Total(LiveBoxes(m.boxes, op.now, l.ttl), Size), size)
            && (out == PutOut(Delivered(op.id)) ==>
                  Box(after.boxes, op.receiver) == box + [Stored(op.id, op.envelope, op.now)])
            && (out != PutOut(Delivered(op.id)) ==> Box(after.boxes, op.receiver) == box)
            && forall r :: r != op.receiver ==> Box(after.boxes, r) == Live(Box(m.boxes, r), op.now, l.ttl)
  {
    hide Live, Total, Bytes;
    BoxPurged(m, l, op.now, op.receiver);
    forall r { BoxPurged(m, l, op.now, r); }
  }

  /** The table counts the declared sizes on both sides; a refusal leaves it as it was. */
  lemma TableVerdict(s: Table, l: Limits, op: Op)
    requires op.Put?
    ensures var rows := LiveRows(s.rows, op.now, l.ttl);
            var size := if op.size.Some? then op.size.value else op.envelope.length;
            var (after, out) := TableStep(s, l, op);
            && VerdictIs(out, l, op.id, |RowsOf(rows, op.receiver)|, SumBytes(rows, Some(op.receiver)),
                         SumBytes(rows, None), size)
            && (out == PutOut(Delivered(op.id)) ==>
                  after.rows == rows + [Row(op.receiver, Stored(op.id, op.envelope, op.now), size)])
            && (out != PutOut(Delivered(op.id)) ==> after.rows == s.rows)
  {
    hide LiveRows, RowsOf, SumBytes;
  }
}
