/** Runs of a mailbox: operations one after the other, on either backend. */
module MailboxRuns {
  import opened Mailbox
  import opened MailboxBackends

  /** The clock reading of an operation; acknowledging reads none. */
  function TimeOf(op: Op, t: real): real {
    match op
    case AllowSend(_, now) => now
    case Put(_, _, _, now, _) => now
    case Fetch(_, _, _, now) => now
    case Ack(_, _) => t
    case PendingStats(now) => now
  }

  /** A page has room for at least one message; the in-memory store cannot cut an empty one. */
  predicate Callable(op: Op) {
    op.Fetch? ==> op.limit >= 1
  }

  ghost predicate AllCallable(ops: seq<Op>) {
    forall op :: op in ops ==> Callable(op)
  }

  /** A run from the empty stores, the last operation last. */
  ghost function RunMemory(l: Limits, ops: seq<Op>): Memory
    requires AllCallable(ops)
  {
    if ops == [] then Memory(map[], map[])
    else
      var before := ops[..|ops| - 1];
      var op := ops[|ops| - 1];
      assert op in ops && forall o :: o in before ==> o in ops;
      MemoryStep(RunMemory(l, before), l, op).0
  }

  function RunTable(l: Limits, ops: seq<Op>): Table {
    if ops == [] then Table([], map[])
    else TableStep(RunTable(l, ops[..|ops| - 1]), l, ops[|ops| - 1]).0
  }

  /** The clock after a run that started at 0. */
  function Clock(ops: seq<Op>): real {
    if ops == [] then 0.0 else TimeOf(ops[|ops| - 1], Clock(ops[..|ops| - 1]))
  }

  /** The clock never goes back. */
  predicate Monotone(ops: seq<Op>) {
    ops == [] || (Monotone(ops[..|ops| - 1]) && Clock(ops[..|ops| - 1]) <= Clock(ops))
  }

  lemma {:induction false} MonotonePrefix(ops: seq<Op>, k: nat)
    requires Monotone(ops) && k <= |ops|
    ensures Monotone(ops[..k]) && Clock(ops[..k]) <= Clock(ops)
  {
    if k < |ops| {
      var before := ops[..|ops| - 1];
      MonotonePrefix(before, k);
      assert before[..k] == ops[..k];
    } else {
      assert ops[..k] == ops;
    }
  }

  datatype Backend = InMemory | OnTable

  /** What a backend can run: the table takes every operation. */
  ghost predicate Runnable(b: Backend, ops: seq<Op>) {
    b.InMemory? ==> AllCallable(ops)
  }

  /** The messages that a backend holds for a receiver after a run, expired ones included. */
  ghost function Held(b: Backend, l: Limits, ops: seq<Op>, r: Agent): seq<Stored>
    requires Runnable(b, ops)
  {
    if b.InMemory? then Box(RunMemory(l, ops).boxes, r) else RowsOf(RunTable(l, ops).rows, r)
  }

  /** What a backend answers to an operation after a run. */
  ghost function AnswerTo(b: Backend, l: Limits, ops: seq<Op>, op: Op): Out
    requires Runnable(b, ops) && (b.InMemory? ==> Callable(op))
  {
    if b.InMemory? then MemoryStep(RunMemory(l, ops), l, op).1 else TableStep(RunTable(l, ops), l, op).1
  }

  lemma RunnablePrefix(b: Backend, ops: seq<Op>, k: nat)
    requires Runnable(b, ops) && k <= |ops|
    ensures Runnable(b, ops[..k]) && (k < |ops| && b.InMemory? ==> Callable(ops[k]))
  {
    assert forall op :: op in ops[..k] ==> op in ops;
  }

  /** The messages held when operation `k` of a run begins. */
  ghost function HeldAt(b: Backend, l: Limits, ops: seq<Op>, k: nat, r: Agent): seq<Stored>
    requires Runnable(b, ops) && k <= |ops|
  {
    RunnablePrefix(b, ops, k);
    Held(b, l, ops[..k], r)
  }

  /** The answer to operation `k` of a run. */
  ghost function AnswerAt(b: Backend, l: Limits, ops: seq<Op>, k: nat): Out
    requires Runnable(b, ops) && k < |ops|
  {
    RunnablePrefix(b, ops, k);
    AnswerTo(b, l, ops[..k], ops[k])
  }

  /** No delivery id is given out twice. */
  ghost predicate FreshIds(ops: seq<Op>) {
    forall i, j :: 0 <= i < j < |ops| && ops[i].Put? && ops[j].Put? ==> ops[i].id != ops[j].id
  }

  /** Every `put` of a run declares the size that a policy gives to its envelope. */
  ghost predicate SizedBy(policy: Envelope -> nat, ops: seq<Op>) {
    forall op :: op in ops && op.Put? ==> SizeOf(op.envelope, op.size) == policy(op.envelope)
  }
}
