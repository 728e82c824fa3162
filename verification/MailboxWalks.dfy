/** Reading a mailbox page by page in the middle of any run of either backend: the walks of
    `MailboxPages` are what the stores serve. */
module MailboxWalks {
  import opened Types
  import opened Mailbox
  import opened MailboxPage
  import opened MailboxBackends
  import opened MailboxRows
  import opened MailboxRuns
  import opened MailboxPages

  ghost predicate DistinctIds(box: seq<Stored>) {
    forall i, j :: 0 <= i < j < |box| ==> box[i].id != box[j].id
  }

  /** `after` has lost some messages of `before`. */
  ghost predicate Thinner(after: seq<Stored>, before: seq<Stored>) {
    && (forall x :: x in after ==> x in before)
    && (DistinctIds(before) ==> DistinctIds(after))
  }

  lemma ThinnerGrows(after: seq<Stored>, before: seq<Stored>, m: Stored)
    requires Thinner(after, before)
    ensures Thinner(after, before + [m]) && Thinner(after + [m], before + [m])
  {
    if DistinctIds(before + [m]) {
      assert DistinctIds(before) by {
        forall i, j | 0 <= i < j < |before| ensures before[i].id != before[j].id {
          assert (before + [m])[i].id != (before + [m])[j].id;
        }
      }
      forall i | 0 <= i < |after| ensures after[i].id != m.id {
        assert after[i] in before;
        var k :| 0 <= k < |before| && before[k] == after[i];
        assert (before + [m])[k].id != (before + [m])[|before|].id;
      }
    }
  }

  lemma {:induction false} LiveThins(box: seq<Stored>, now: real, ttl: real)
    ensures Thinner(Live(box, now, ttl), box)
    ensures forall x :: x in Live(box, now, ttl) <==> x in box && now - x.at < ttl
  {
    if box != [] {
      var n := |box| - 1;
      assert box == box[..n] + [box[n]];
      LiveThins(box[..n], now, ttl);
      ThinnerGrows(Live(box[..n], now, ttl), box[..n], box[n]);
      hide Thinner;
    }
  }

  lemma {:induction false} WithoutIdThins(box: seq<Stored>, id: nat)
    ensures Thinner(WithoutId(box, id), box)
  {
    if box != [] {
      var n := |box| - 1;
      assert box == box[..n] + [box[n]];
      WithoutIdThins(box[..n], id);
      ThinnerGrows(WithoutId(box[..n], id), box[..n], box[n]);
      hide Thinner;
    }
  }

  function Message(op: Op): Stored
    requires op.Put?
  {
    Stored(op.id, op.envelope, op.now)
  }

  /** An operation thins what is held for a receiver, and a `put` may add a message. */
  ghost predicate Moved(before: seq<Stored>, after: seq<Stored>, op: Op, r: Agent) {
    || Thinner(after, before)
    || (op.Put? && op.receiver == r && exists thinned :: Thinner(thinned, before) && after == thinned + [Message(op)])
  }

  lemma BoxMoves(m: Memory, l: Limits, op: Op, r: Agent)
    requires Callable(op)
    ensures Moved(Box(m.boxes, r), Box(MemoryStep(m, l, op).0.boxes, r), op, r)
  {
    var before := Box(m.boxes, r);
    match op
    case AllowSend(_, _) =>
    case Ack(receiver, id) => WithoutIdThins(before, id);
    case _ => LiveThins(before, op.now, l.ttl);
  }

  lemma RowsMove(s: Table, l: Limits, op: Op, r: Agent)
    ensures Moved(RowsOf(s.rows, r), RowsOf(TableStep(s, l, op).0.rows, r), op, r)
  {
    hide Live, LiveRows, RowsOf, SumBytes, WithoutId, WithoutRow, Thinner;
    var before := RowsOf(s.rows, r);
    match op
    case AllowSend(_, _) => StaysThin(before);
    case Ack(receiver, id) =>
      AckRows(s.rows, receiver, id, r);
      WithoutIdThins(before, id);
      StaysThin(before);
    case Put(receiver, envelope, size, now, _) =>
      LiveRowsThin(s.rows, r, now, l.ttl);
      StaysThin(before);
      RowsOfConcat(LiveRows(s.rows, now, l.ttl), Row(receiver, Message(op), SizeOf(envelope, size)), r);
    case _ => LiveRowsThin(s.rows, r, op.now, l.ttl);
  }

  lemma StaysThin(box: seq<Stored>)
    ensures Thinner(box, box)
  {
  }

  lemma LiveRowsThin(rows: seq<Row>, r: Agent, now: real, ttl: real)
    ensures Thinner(RowsOf(LiveRows(rows, now, ttl), r), RowsOf(rows, r))
  {
    RowsOfLive(rows, r, now, ttl);
    LiveThins(RowsOf(rows, r), now, ttl);
  }

  lemma HeldMoves(b: Backend, l: Limits, ops: seq<Op>, k: nat, r: Agent)
    requires Runnable(b, ops) && k < |ops|
    ensures Moved(HeldAt(b, l, ops, k, r), HeldAt(b, l, ops, k + 1, r), ops[k], r)
  {
    hide MemoryStep, TableStep, Moved;
    RunnablePrefix(b, ops, k);
    RunnablePrefix(b, ops, k + 1);
    assert ops[..k + 1][..k] == ops[..k];
    if b.InMemory? {
      BoxMoves(RunMemory(l, ops[..k]), l, ops[k], r);
    } else {
      RowsMove(RunTable(l, ops[..k]), l, ops[k], r);
    }
  }

  ghost predicate WasPut(ops: seq<Op>, x: Stored) {
    exists i :: 0 <= i < |ops| && ops[i].Put? && x == Message(ops[i])
  }

  ghost predicate IdInUse(ops: seq<Op>, id: nat) {
    exists i :: 0 <= i < |ops| && ops[i].Put? && ops[i].id == id
  }

  /** The messages have distinct ids, and all of them were put in the run. */
  ghost predicate Known(ops: seq<Op>, held: seq<Stored>) {
    DistinctIds(held) && forall x :: x in held ==> WasPut(ops, x)
  }

  lemma MoveKeepsKnown(ops: seq<Op>, op: Op, before: seq<Stored>, after: seq<Stored>, r: Agent)
    requires Known(ops, before) && Moved(before, after, op, r) && (op.Put? ==> !IdInUse(ops, op.id))
    ensures Known(ops + [op], after)
  {
    StillPut(ops, op);
    if !Thinner(after, before) {
      var thinned :| Thinner(thinned, before) && after == thinned + [Message(op)];
      forall x | x in thinned ensures x.id != op.id {
        assert WasPut(ops, x);
      }
      assert forall i :: 0 <= i < |thinned| ==> thinned[i] in thinned;
    }
  }

  lemma StillPut(ops: seq<Op>, op: Op)
    ensures forall x :: WasPut(ops, x) ==> WasPut(ops + [op], x)
    ensures op.Put? ==> WasPut(ops + [op], Message(op))
  {
    forall x | WasPut(ops, x) ensures WasPut(ops + [op], x) {
      var i :| 0 <= i < |ops| && ops[i].Put? && x == Message(ops[i]);
      assert (ops + [op])[i] == ops[i];
    }
    assert (ops + [op])[|ops|] == op;
  }

  lemma NewIdIsNew(ops: seq<Op>, k: nat)
    requires FreshIds(ops) && k < |ops|
    ensures ops[k].Put? ==> !IdInUse(ops[..k], ops[k].id)
  {
  }

  /** In every run no two messages are held for a receiver with one delivery id, and every message
      held was put. */
  lemma {:induction false} IdsStayDistinct(b: Backend, l: Limits, ops: seq<Op>, k: nat, r: Agent)
    requires Runnable(b, ops) && FreshIds(ops) && k <= |ops|
    ensures Known(ops[..k], HeldAt(b, l, ops, k, r))
    decreases k
  {
    if k > 0 {
      IdsStayDistinct(b, l, ops, k - 1, r);
      NewIdIsNew(ops, k - 1);
      HeldMoves(b, l, ops, k - 1, r);
      assert ops[..k] == ops[..k - 1] + [ops[k - 1]];
      hide HeldAt, Known, Moved, FreshIds, IdInUse;
      MoveKeepsKnown(ops[..k - 1], ops[k - 1], HeldAt(b, l, ops, k - 1, r), HeldAt(b, l, ops, k, r), r);
    }
  }

  /** What is pending for a receiver when operation `k` fetches. */
  ghost function PendingAt(b: Backend, l: Limits, ops: seq<Op>, k: nat): seq<Stored>
    requires Runnable(b, ops) && k < |ops| && ops[k].Fetch?
  {
    Live(HeldAt(b, l, ops, k, ops[k].receiver), ops[k].now, l.ttl)
  }

  lemma FetchServesNextPage(b: Backend, l: Limits, ops: seq<Op>, k: nat)
    requires Runnable(b, ops) && k < |ops| && ops[k].Fetch? && ops[k].limit >= 1
    ensures AnswerAt(b, l, ops, k) == PageOut(NextPage(PendingAt(b, l, ops, k), ops[k].limit, ops[k].cursor))
  {
    hide NextPage, QueryPage, Live, LiveRows, RowsOf, RunMemory, RunTable, PurgeMemory, Box;
    var op := ops[k];
    RunnablePrefix(b, ops, k);
    if b.InMemory? {
      BoxPurged(RunMemory(l, ops[..k]), l, op.now, op.receiver);
    } else {
      RowsOfLive(RunTable(l, ops[..k]).rows, op.receiver, op.now, l.ttl);
      PagesMatch(PendingAt(b, l, ops, k), op.cursor, op.limit);
    }
  }

  lemma PendingIsDistinct(b: Backend, l: Limits, ops: seq<Op>, k: nat)
    requires Runnable(b, ops) && FreshIds(ops) && k < |ops| && ops[k].Fetch?
    ensures Distinct(PendingAt(b, l, ops, k))
  {
    IdsStayDistinct(b, l, ops, k, ops[k].receiver);
    hide HeldAt;
    LiveThins(HeldAt(b, l, ops, k, ops[k].receiver), ops[k].now, l.ttl);
  }

  /** In any run with fresh ids, and whatever sizes and clocks, a fetch serves the first part of what
      is pending behind its cursor. */
  lemma FetchServesPages(b: Backend, l: Limits, ops: seq<Op>, k: nat, page: Page)
    requires Runnable(b, ops) && FreshIds(ops) && k < |ops| && ops[k].Fetch? && ops[k].limit >= 1
    requires AnswerAt(b, l, ops, k) == PageOut(page)
    ensures IsPage(PendingAt(b, l, ops, k), ops[k].limit, ops[k].cursor, page)
  {
    hide AnswerAt, PendingAt, NextPage, IsPage, Distinct, FreshIds;
    FetchServesNextPage(b, l, ops, k);
    PendingIsDistinct(b, l, ops, k);
    NextPageIsPage(PendingAt(b, l, ops, k), ops[k].limit, ops[k].cursor);
  }

  /** In terms of the messages: the oldest come first, of equally old ones those with the lower id; all of
      them lie behind the cursor, and so does, further on, everything that is left for a later page. */
  lemma FetchServesOldestFirst(b: Backend, l: Limits, ops: seq<Op>, k: nat, page: Page)
    requires Runnable(b, ops) && FreshIds(ops) && k < |ops| && ops[k].Fetch? && ops[k].limit >= 1
    requires AnswerAt(b, l, ops, k) == PageOut(page)
    ensures forall i, j :: 0 <= i < j < |page.items| ==> Earlier(page.items[i], page.items[j])
    ensures forall x :: x in page.items ==> x in PendingAt(b, l, ops, k) && Follows(ops[k].cursor, x)
    ensures forall x, y :: x in page.items && IsLeft(b, l, ops, k, page, y) ==>
              Earlier(x, y) && |page.items| == ops[k].limit
    ensures forall x :: x in PendingAt(b, l, ops, k) <==>
              x in HeldAt(b, l, ops, k, ops[k].receiver) && ops[k].now - x.at < l.ttl
  {
    hide HeldAt, Live, AnswerAt, IsPage, FreshIds, Earlier, Follows;
    FetchServesPages(b, l, ops, k, page);
    LiveThins(HeldAt(b, l, ops, k, ops[k].receiver), ops[k].now, l.ttl);
    PageIsOldestFirst(PendingAt(b, l, ops, k), ops[k].limit, ops[k].cursor, page);
  }

  lemma PageIsOldestFirst(box: seq<Stored>, limit: nat, cursor: Option<Key>, page: Page)
    requires IsPage(box, limit, cursor, page)
    ensures forall i, j :: 0 <= i < j < |page.items| ==> Earlier(page.items[i], page.items[j])
    ensures forall x :: x in page.items ==> x in box && Follows(cursor, x)
    ensures forall x, y :: x in page.items && y in box && Follows(cursor, y) && y !in page.items ==>
              Earlier(x, y) && |page.items| == limit
  {
    forall x, y | x in page.items && y in box && Follows(cursor, y) && y !in page.items
      ensures Earlier(x, y) && |page.items| == limit
    {
      var i :| 0 <= i < |page.items| && page.items[i] == x;
      assert i < |page.items| - 1 ==> x.SortKey().Below(page.items[|page.items| - 1].SortKey());
      assert Passes(y, cursor);
    }
  }

  /** Pending behind the cursor, and not on the page. */
  ghost predicate IsLeft(b: Backend, l: Limits, ops: seq<Op>, k: nat, page: Page, x: Stored)
    requires Runnable(b, ops) && k < |ops| && ops[k].Fetch?
  {
    x in PendingAt(b, l, ops, k) && Follows(ops[k].cursor, x) && x !in page.items
  }

  predicate Earlier(x: Stored, y: Stored) {
    x.at < y.at || (x.at == y.at && x.id < y.id)
  }

  predicate Follows(cursor: Option<Key>, x: Stored) {
    cursor.Some? ==> cursor.value.at < x.at || (cursor.value.at == x.at && cursor.value.id < x.id)
  }

  /** The operations `at` of the run fetch one page after the other for this receiver. */
  ghost predicate Reads(b: Backend, l: Limits, ops: seq<Op>, at: seq<nat>, receiver: Agent, limit: nat,
      pages: seq<Page>)
    requires Runnable(b, ops)
  {
    && |at| == |pages| && (forall i, j :: 0 <= i < j < |at| ==> at[i] < at[j])
    && (forall i :: 0 <= i < |at| ==> IsRead(b, l, ops, at[i], receiver, limit, CursorAt(pages, i), pages[i]))
    && (forall i :: 0 <= i < |pages| - 1 ==> pages[i].next.Some?)
  }

  ghost predicate IsRead(
    b: Backend, l: Limits, ops: seq<Op>, k: nat, receiver: Agent, limit: nat, cursor: Option<Key>, page: Page
  )
    requires Runnable(b, ops)
  {
    && k < |ops| && ops[k].Fetch? && ops[k].receiver == receiver && ops[k].limit == limit && ops[k].cursor == cursor
    && AnswerAt(b, l, ops, k) == PageOut(page)
  }

  ghost predicate AllFetches(ops: seq<Op>, at: seq<nat>) {
    forall i :: 0 <= i < |at| ==> at[i] < |ops| && ops[at[i]].Fetch?
  }

  ghost function BoxesRead(b: Backend, l: Limits, ops: seq<Op>, at: seq<nat>): seq<seq<Stored>>
    requires Runnable(b, ops) && AllFetches(ops, at)
  {
    seq(|at|, i requires 0 <= i < |at| => PendingAt(b, l, ops, at[i]))
  }

  lemma ReadsAreAWalk(
    b: Backend, l: Limits, ops: seq<Op>, at: seq<nat>, receiver: Agent, limit: nat, pages: seq<Page>
  )
    requires Runnable(b, ops) && FreshIds(ops) && limit >= 1 && Reads(b, l, ops, at, receiver, limit, pages)
    ensures AllFetches(ops, at) && Walk(BoxesRead(b, l, ops, at), limit, pages)
  {
    hide AnswerAt, PendingAt, IsPage, FreshIds, Runnable;
    forall i | 0 <= i < |at|
      ensures at[i] < |ops| && ops[at[i]].Fetch? && IsPage(PendingAt(b, l, ops, at[i]), limit, CursorAt(pages, i),
                pages[i])
    {
      assert IsRead(b, l, ops, at[i], receiver, limit, CursorAt(pages, i), pages[i]);
      FetchServesPages(b, l, ops, at[i], pages[i]);
    }
  }

  /** In any run with fresh ids, of either backend and whatever sizes and clocks, a reader who
      follows the cursor to the end gets every message that stays pending exactly once. */
  lemma RunServesPendingOnce(
    b: Backend, l: Limits, ops: seq<Op>, at: seq<nat>, receiver: Agent, limit: nat, pages: seq<Page>, x: Stored
  )
    requires Runnable(b, ops) && FreshIds(ops) && limit >= 1
    requires Reads(b, l, ops, at, receiver, limit, pages) && Complete(pages)
    requires AllFetches(ops, at) && forall i :: 0 <= i < |at| ==> x in PendingAt(b, l, ops, at[i])
    ensures exists i :: 0 <= i < |pages| && x in pages[i].items
                        && forall j :: 0 <= j < |pages| && x in pages[j].items ==> j == i
  {
    ReadsAreAWalk(b, l, ops, at, receiver, limit, pages);
    hide PendingAt, Reads;
    PendingServedExactlyOnce(BoxesRead(b, l, ops, at), limit, pages, x);
  }

  // Termination

  /** Nothing is put for the receiver from one place of the run to another. */
  ghost predicate NoPut(ops: seq<Op>, from: int, to: int, receiver: Agent) {
    forall i :: from <= i < to && 0 <= i < |ops| ==> !(ops[i].Put? && ops[i].receiver == receiver)
  }

  lemma NoPutWithin(ops: seq<Op>, from: int, to: int, receiver: Agent, j: int, k: int)
    requires NoPut(ops, from, to, receiver) && from <= j && k <= to
    ensures NoPut(ops, j, k, receiver)
  {
  }

  ghost predicate Within(a: seq<Stored>, b: seq<Stored>) {
    forall x :: x in a ==> x in b
  }

  lemma WithinTransitive(a: seq<Stored>, b: seq<Stored>, c: seq<Stored>)
    requires Within(a, b) && Within(b, c)
    ensures Within(a, c)
  {
  }

  lemma {:induction false} HeldOnlyShrinks(b: Backend, l: Limits, ops: seq<Op>, j: nat, k: nat, r: Agent)
    requires Runnable(b, ops) && j <= k <= |ops| && NoPut(ops, j, k, r)
    ensures Within(HeldAt(b, l, ops, k, r), HeldAt(b, l, ops, j, r))
    decreases k
  {
    if j < k {
      NoPutWithin(ops, j, k, r, j, k - 1);
      assert !(ops[k - 1].Put? && ops[k - 1].receiver == r);
      HeldMoves(b, l, ops, k - 1, r);
      hide NoPut, Runnable, HeldAt;
      HeldOnlyShrinks(b, l, ops, j, k - 1, r);
      WithinTransitive(HeldAt(b, l, ops, k, r), HeldAt(b, l, ops, k - 1, r), HeldAt(b, l, ops, j, r));
    }
  }

  lemma FetchesInOrder(ops: seq<Op>, j: nat, k: nat)
    requires Monotone(ops) && j <= k < |ops| && ops[j].Fetch? && ops[k].Fetch?
    ensures ops[j].now <= ops[k].now
  {
    MonotonePrefix(ops, k + 1);
    MonotonePrefix(ops[..k + 1], j + 1);
    assert ops[..k + 1][..j + 1] == ops[..j + 1];
    hide Monotone;
    assert Clock(ops[..k + 1]) == ops[k].now && Clock(ops[..j + 1]) == ops[j].now;
  }

  /** What is live later is live now. */
  lemma LiveWithin(later: seq<Stored>, earlier: seq<Stored>, now: real, before: real, ttl: real)
    requires Within(later, earlier) && before <= now
    ensures Within(Live(later, now, ttl), Live(earlier, before, ttl))
  {
    LiveThins(later, now, ttl);
    LiveThins(earlier, before, ttl);
    hide Live, Thinner;
  }

  lemma PendingOnlyShrinks(b: Backend, l: Limits, ops: seq<Op>, j: nat, k: nat)
    requires Runnable(b, ops) && Monotone(ops) && j <= k < |ops|
    requires ops[j].Fetch? && ops[k].Fetch? && ops[j].receiver == ops[k].receiver
    requires NoPut(ops, j, k, ops[k].receiver)
    ensures Within(PendingAt(b, l, ops, k), PendingAt(b, l, ops, j))
  {
    hide Runnable, Within, NoPut, HeldAt, Live, Monotone;
    var r := ops[k].receiver;
    HeldOnlyShrinks(b, l, ops, j, k, r);
    FetchesInOrder(ops, j, k);
    LiveWithin(HeldAt(b, l, ops, k, r), HeldAt(b, l, ops, j, r), ops[k].now, ops[j].now, l.ttl);
  }

  /** When nothing is put for the receiver meanwhile, under a clock that never goes back, the walk
      has at most one page more than messages were pending at its start. */
  lemma RunWalkTerminates(
    b: Backend, l: Limits, ops: seq<Op>, at: seq<nat>, receiver: Agent, limit: nat, pages: seq<Page>
  )
    requires Runnable(b, ops) && FreshIds(ops) && Monotone(ops) && limit >= 1
    requires Reads(b, l, ops, at, receiver, limit, pages) && pages != []
    requires NoPut(ops, at[0], at[|at| - 1], receiver)
    ensures at[0] < |ops| && ops[at[0]].Fetch? && |pages| <= |PendingAt(b, l, ops, at[0])| + 1
  {
    assert |at| == |pages|;
    hide PendingAt, Walk, NothingNew, NoPut, Reads;
    ReadsAreAWalk(b, l, ops, at, receiver, limit, pages);
    NothingNewIsRead(b, l, ops, at, receiver, limit, pages);
    WalkTerminates(BoxesRead(b, l, ops, at), limit, pages);
    assert BoxesRead(b, l, ops, at)[0] == PendingAt(b, l, ops, at[0]);
  }

  lemma ReadAt(
    b: Backend, l: Limits, ops: seq<Op>, at: seq<nat>, receiver: Agent, limit: nat, pages: seq<Page>, i: nat
  )
    requires Runnable(b, ops) && Reads(b, l, ops, at, receiver, limit, pages) && i < |at|
    ensures at[i] < |ops| && ops[at[i]].Fetch? && ops[at[i]].receiver == receiver && at[0] <= at[i] <= at[|at| - 1]
    ensures forall j :: i < j < |at| ==> at[i] < at[j]
  {
    hide AnswerAt, Runnable;
    assert IsRead(b, l, ops, at[i], receiver, limit, CursorAt(pages, i), pages[i]);
  }

  lemma NothingNewIsRead(
    b: Backend, l: Limits, ops: seq<Op>, at: seq<nat>, receiver: Agent, limit: nat, pages: seq<Page>
  )
    requires Runnable(b, ops) && Monotone(ops) && Reads(b, l, ops, at, receiver, limit, pages) && pages != []
    requires |at| == |pages| && NoPut(ops, at[0], at[|at| - 1], receiver)
    ensures AllFetches(ops, at) && NothingNew(BoxesRead(b, l, ops, at))
  {
    hide PendingAt, Reads, Monotone, Runnable, NoPut, Within;
    forall i | 0 <= i < |at| ensures at[i] < |ops| && ops[at[i]].Fetch? {
      ReadAt(b, l, ops, at, receiver, limit, pages, i);
    }
    forall j, k | 0 <= j < k < |at| ensures Within(PendingAt(b, l, ops, at[k]), PendingAt(b, l, ops, at[j])) {
      ReadAt(b, l, ops, at, receiver, limit, pages, j);
      ReadAt(b, l, ops, at, receiver, limit, pages, k);
      NoPutWithin(ops, at[0], at[|at| - 1], receiver, at[j], at[k]);
      PendingOnlyShrinks(b, l, ops, at[j], at[k]);
    }
    NothingNewByPairs(b, l, ops, at);
  }

  lemma NothingNewByPairs(b: Backend, l: Limits, ops: seq<Op>, at: seq<nat>)
    requires Runnable(b, ops) && AllFetches(ops, at)
    requires forall j, k :: 0 <= j < k < |at| ==> Within(PendingAt(b, l, ops, at[k]), PendingAt(b, l, ops, at[j]))
    ensures NothingNew(BoxesRead(b, l, ops, at))
  {
    hide PendingAt, Runnable;
    var boxes := BoxesRead(b, l, ops, at);
    forall j, k, x | 0 <= j < k < |boxes| && x in boxes[k] ensures x in boxes[j] {
      assert boxes[k] == PendingAt(b, l, ops, at[k]) && boxes[j] == PendingAt(b, l, ops, at[j]);
    }
  }
}
