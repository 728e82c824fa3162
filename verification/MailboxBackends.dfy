/** The two mailbox backends as state machines: dictionaries of lists in memory, and the rows of
    a table. */
module MailboxBackends {
  import opened Types
  import opened Mailbox
  import opened MailboxPage

  type Rates = map<(Agent, int), nat>

  datatype Memory = Memory(boxes: map<Agent, seq<Stored>>, rates: Rates)

  /** `bytes` is the size that the row was stored with. Rows are kept in the order of insertion. */
  datatype Row = Row(receiver: Agent, message: Stored, bytes: nat)

  datatype Table = Table(rows: seq<Row>, rates: Rates)

  datatype Op =
    | AllowSend(sender: Agent, now: real)
    | Put(receiver: Agent, envelope: Envelope, size: Option<nat>, now: real, id: nat)
    | Fetch(receiver: Agent, limit: nat, cursor: Option<Key>, now: real)
    | Ack(receiver: Agent, id: nat)
    | PendingStats(now: real)

  datatype Out =
    | Allowed(allowed: bool)
    | PutOut(result: PutResult)
    | PageOut(page: Page)
    | Acknowledged(found: bool)
    | Stats(count: nat, bytes: nat)

  function Box(boxes: map<Agent, seq<Stored>>, receiver: Agent): seq<Stored> {
    if receiver in boxes then boxes[receiver] else []
  }

  function Count(rates: Rates, sender: Agent, minute: int): nat {
    if (sender, minute) in rates then rates[(sender, minute)] else 0
  }

  datatype Measure = Messages | Size

  function Weight(box: seq<Stored>, m: Measure): nat {
    if m.Messages? then |box| else Bytes(box)
  }

  /** The weight of the boxes of some receivers. */
  ghost function WeightOf(boxes: map<Agent, seq<Stored>>, keys: set<Agent>, m: Measure): nat
    requires keys <= boxes.Keys
  {
    if keys == {} then 0
    else
      var k :| k in keys;
      Weight(boxes[k], m) + WeightOf(boxes, keys - {k}, m)
  }

  ghost function Total(boxes: map<Agent, seq<Stored>>, m: Measure): nat {
    WeightOf(boxes, boxes.Keys, m)
  }

  function WithoutId(box: seq<Stored>, id: nat): seq<Stored> {
    if box == [] then []
    else
      var last := box[|box| - 1];
      WithoutId(box[..|box| - 1], id) + if last.id != id then [last] else []
  }

  function LiveBoxes(boxes: map<Agent, seq<Stored>>, now: real, ttl: real): map<Agent, seq<Stored>> {
    map r | r in boxes :: Live(boxes[r], now, ttl)
  }

  function RecentRates(rates: Rates, now: real): Rates {
    map k | k in rates && k.1 >= Minute(now) - 1 :: rates[k]
  }

  function PurgeMemory(s: Memory, l: Limits, now: real): Memory {
    Memory(LiveBoxes(s.boxes, now, l.ttl), RecentRates(s.rates, now))
  }

  ghost function MemoryStep(s: Memory, l: Limits, op: Op): (Memory, Out)
    requires op.Fetch? ==> op.limit >= 1
  {
    match op
    case AllowSend(sender, now) =>
      var count := Count(s.rates, sender, Minute(now));
      if count >= l.ratePerMinute then (s, Allowed(false))
      else (s.(rates := s.rates[(sender, Minute(now)) := count + 1]), Allowed(true))
    case Put(receiver, envelope, size, now, id) =>
      var p := PurgeMemory(s, l, now);
      var box := Box(p.boxes, receiver);
      var refused := Overflow(l, |box|, Bytes(box), Total(p.boxes, Size), SizeOf(envelope, size));
      if refused.Some? then (p, PutOut(CapacityExceeded(refused.value)))
      else (p.(boxes := p.boxes[receiver := box + [Stored(id, envelope, now)]]), PutOut(Delivered(id)))
    case Fetch(receiver, limit, cursor, now) =>
      var p := PurgeMemory(s, l, now);
      (p, PageOut(NextPage(Box(p.boxes, receiver), limit, cursor)))
    case Ack(receiver, id) =>
      var box := Box(s.boxes, receiver);
      var remaining := WithoutId(box, id);
      if |remaining| == |box| then (s, Acknowledged(false))
      else (s.(boxes := s.boxes[receiver := remaining]), Acknowledged(true))
    case PendingStats(now) =>
      var p := PurgeMemory(s, l, now);
      (p, Stats(Total(p.boxes, Messages), Total(p.boxes, Size)))
  }

  function LiveRows(rows: seq<Row>, now: real, ttl: real): seq<Row> {
    if rows == [] then []
    else
      var last := rows[|rows| - 1];
      LiveRows(rows[..|rows| - 1], now, ttl) + if now - last.message.at < ttl then [last] else []
  }

  function RowsOf(rows: seq<Row>, receiver: Agent): seq<Stored> {
    if rows == [] then []
    else
      var last := rows[|rows| - 1];
      RowsOf(rows[..|rows| - 1], receiver) + if last.receiver == receiver then [last.message] else []
  }

  /** The sum of the stored sizes; of one receiver's rows, or of all. */
  function SumBytes(rows: seq<Row>, receiver: Option<Agent>): nat {
    if rows == [] then 0
    else
      var last := rows[|rows| - 1];
      SumBytes(rows[..|rows| - 1], receiver) + if receiver.None? || receiver.value == last.receiver then last.bytes
        else 0
  }

  function WithoutRow(rows: seq<Row>, receiver: Agent, id: nat): seq<Row> {
    if rows == [] then []
    else
      var last := rows[|rows| - 1];
      WithoutRow(rows[..|rows| - 1], receiver, id) + if last.receiver == receiver && last.message.id == id then []
        else [last]
  }

  function TableStep(s: Table, l: Limits, op: Op): (Table, Out) {
    match op
    case AllowSend(sender, now) =>
      var recent := RecentRates(s.rates, now);
      var count := Count(recent, sender, Minute(now));
      if count >= l.ratePerMinute then (s.(rates := recent), Allowed(false))
      else (s.(rates := recent[(sender, Minute(now)) := count + 1]), Allowed(true))
    case Put(receiver, envelope, size, now, id) =>
      var rows := LiveRows(s.rows, now, l.ttl);
      var refused := Overflow(l, |RowsOf(rows, receiver)|, SumBytes(rows, Some(receiver)), SumBytes(rows, None),
        SizeOf(envelope, size));
      if refused.Some? then (s, PutOut(CapacityExceeded(refused.value)))
      else (s.(rows := rows + [Row(receiver, Stored(id, envelope, now), SizeOf(envelope, size))]),
        PutOut(Delivered(id)))
    case Fetch(receiver, limit, cursor, now) =>
      var rows := LiveRows(s.rows, now, l.ttl);
      (s.(rows := rows), PageOut(QueryPage(After(RowsOf(rows, receiver), cursor), limit)))
    case Ack(receiver, id) =>
      var remaining := WithoutRow(s.rows, receiver, id);
      (s.(rows := remaining), Acknowledged(|remaining| < |s.rows|))
    case PendingStats(now) =>
      var rows := LiveRows(s.rows, now, l.ttl);
      (s.(rows := rows), Stats(|rows|, SumBytes(rows, None)))
  }

  lemma WithoutIdConcat(box: seq<Stored>, m: Stored, id: nat)
    ensures WithoutId(box + [m], id) == if m.id != id then WithoutId(box, id) + [m] else WithoutId(box, id)
  {
    assert (box + [m])[..|box|] == box;
  }

  lemma LiveRowsConcat(rows: seq<Row>, x: Row, now: real, ttl: real)
    ensures LiveRows(rows + [x], now, ttl) == if now - x.message.at < ttl then LiveRows(rows, now, ttl) + [x]
              else LiveRows(rows, now, ttl)
  {
    assert (rows + [x])[..|rows|] == rows;
  }

  lemma RowsOfConcat(rows: seq<Row>, x: Row, r: Agent)
    ensures RowsOf(rows + [x], r) == if x.receiver == r then RowsOf(rows, r) + [x.message] else RowsOf(rows, r)
  {
    assert (rows + [x])[..|rows|] == rows;
  }

  lemma SumBytesConcat(rows: seq<Row>, x: Row, r: Option<Agent>)
    ensures SumBytes(rows + [x], r) == SumBytes(rows, r) + if r.None? || r.value == x.receiver then x.bytes else 0
  {
    assert (rows + [x])[..|rows|] == rows;
  }

  lemma WithoutRowConcat(rows: seq<Row>, x: Row, receiver: Agent, id: nat)
    ensures WithoutRow(rows + [x], receiver, id)
         == if x.receiver == receiver && x.message.id == id then WithoutRow(rows, receiver, id)
           else WithoutRow(rows, receiver, id) + [x]
  {
    assert (rows + [x])[..|rows|] == rows;
  }

  lemma {:induction false} WeightWithout(boxes: map<Agent, seq<Stored>>, keys: set<Agent>, k: Agent, m: Measure)
    requires k in keys && keys <= boxes.Keys
    ensures WeightOf(boxes, keys, m) == Weight(boxes[k], m) + WeightOf(boxes, keys - {k}, m)
  {
    var pick :| pick in keys && WeightOf(boxes, keys, m) == Weight(boxes[pick], m) + WeightOf(boxes, keys - {pick}, m);
    if pick != k {
      WeightWithout(boxes, keys - {pick}, k, m);
      WeightWithout(boxes, keys - {k}, pick, m);
      assert keys - {pick} - {k} == keys - {k} - {pick};
    }
  }

  lemma {:induction false} WeightSame(a: map<Agent, seq<Stored>>, b: map<Agent, seq<Stored>>, keys: set<Agent>,
      m: Measure)
    requires keys <= a.Keys && keys <= b.Keys && forall k :: k in keys ==> a[k] == b[k]
    ensures WeightOf(a, keys, m) == WeightOf(b, keys, m)
  {
    if keys != {} {
      var k :| k in keys;
      WeightWithout(a, keys, k, m);
      WeightWithout(b, keys, k, m);
      WeightSame(a, b, keys - {k}, m);
    }
  }

  lemma TotalUpdate(boxes: map<Agent, seq<Stored>>, k: Agent, box: seq<Stored>, m: Measure)
    ensures Total(boxes[k := box], m) == Total(boxes, m) - Weight(Box(boxes, k), m) + Weight(box, m)
  {
    var updated := boxes[k := box];
    var others := boxes.Keys - {k};
    assert updated.Keys - {k} == others;
    WeightWithout(updated, updated.Keys, k, m);
    if k in boxes {
      WeightWithout(boxes, boxes.Keys, k, m);
    } else {
      assert others == boxes.Keys;
    }
    WeightSame(boxes, updated, others, m);
  }

  /** The in-memory store. */
  class MailboxStore {
    const limits: Limits
    var boxes: map<Agent, seq<Stored>>
    var rates: Rates

    constructor (limits: Limits)
      ensures this.limits == limits && View() == Memory(map[], map[])
    {
      this.limits := limits;
      boxes, rates := map[], map[];
    }

    function View(): Memory
      reads this
    {
      Memory(boxes, rates)
    }

    /** Drops what has expired, box by box, and then the counters of past minutes. */
    method Purge(now: real)
      modifies this
      ensures View() == PurgeMemory(old(View()), limits, now)
    {
      var todo := boxes.Keys;
      while todo != {}
        invariant todo <= boxes.Keys == old(boxes).Keys && rates == old(rates)
        invariant forall r :: r in boxes ==> boxes[r] == if r in todo then old(boxes)[r]
                    else Live(old(boxes)[r], now, limits.ttl)
        decreases todo
      {
        var r :| r in todo;
        boxes := boxes[r := Live(boxes[r], now, limits.ttl)];
        todo := todo - {r};
      }
      assert boxes == LiveBoxes(old(boxes), now, limits.ttl);
      var senders := rates.Keys;
      while senders != {}
        invariant senders <= rates.Keys <= old(rates).Keys && boxes == LiveBoxes(old(boxes), now, limits.ttl)
        invariant forall k :: k in old(rates) ==> (k in rates <==> k in senders || k.1 >= Minute(now) - 1)
        invariant forall k :: k in rates ==> rates[k] == old(rates)[k]
        decreases senders
      {
        var k :| k in senders;
        if k.1 < Minute(now) - 1 {
          rates := rates - {k};
        }
        senders := senders - {k};
      }
      assert rates == RecentRates(old(rates), now);
    }

    method AllowSend(sender: Agent, now: real) returns (allowed: bool)
      modifies this
      ensures (View(), Allowed(allowed)) == MemoryStep(old(View()), limits, Op.AllowSend(sender, now))
    {
      var count := Count(rates, sender, Minute(now));
      if count >= limits.ratePerMinute {
        return false;
      }
      rates := rates[(sender, Minute(now)) := count + 1];
      allowed := true;
    }

    method PendingStats(now: real) returns (count: nat, bytes: nat)
      modifies this
      ensures (View(), Stats(count, bytes)) == MemoryStep(old(View()), limits, Op.PendingStats(now))
    {
      Purge(now);
      count, bytes := 0, 0;
      var todo := boxes.Keys;
      while todo != {}
        invariant todo <= boxes.Keys && View() == PurgeMemory(old(View()), limits, now)
        invariant count + WeightOf(boxes, todo, Messages) == Total(boxes, Messages)
        invariant bytes + WeightOf(boxes, todo, Size) == Total(boxes, Size)
        decreases todo
      {
        var r :| r in todo;
        WeightWithout(boxes, todo, r, Messages);
        WeightWithout(boxes, todo, r, Size);
        count, bytes := count + |boxes[r]|, bytes + Bytes(boxes[r]);
        todo := todo - {r};
      }
    }

    method Put(receiver: Agent, envelope: Envelope, size: Option<nat>, now: real, id: nat) returns (result: PutResult)
      modifies this
      ensures (View(), PutOut(result)) == MemoryStep(old(View()), limits, Op.Put(receiver, envelope, size, now, id))
    {
      Purge(now);
      var box := Box(boxes, receiver);
      var receiverBytes := Bytes(box);
      PurgeTwice(View(), old(View()), limits, now);
      var _, totalBytes := PendingStats(now);
      var refused := Overflow(limits, |box|, receiverBytes, totalBytes, SizeOf(envelope, size));
      if refused.Some? {
        return CapacityExceeded(refused.value);
      }
      boxes := boxes[receiver := box + [Stored(id, envelope, now)]];
      result := Delivered(id);
    }

    method Fetch(receiver: Agent, limit: nat, cursor: Option<Key>, now: real) returns (page: Page)
      requires limit >= 1
      modifies this
      ensures (View(), PageOut(page)) == MemoryStep(old(View()), limits, Op.Fetch(receiver, limit, cursor, now))
      ensures Distinct(Box(boxes, receiver)) ==> IsPage(Box(boxes, receiver), limit, cursor, page)
    {
      Purge(now);
      page := NextPage(Box(boxes, receiver), limit, cursor);
      if Distinct(Box(boxes, receiver)) {
        NextPageIsPage(Box(boxes, receiver), limit, cursor);
      }
    }

    method Ack(receiver: Agent, id: nat) returns (found: bool)
      modifies this
      ensures (View(), Acknowledged(found)) == MemoryStep(old(View()), limits, Op.Ack(receiver, id))
    {
      var box := Box(boxes, receiver);
      var remaining := WithoutId(box, id);
      if |remaining| == |box| {
        return false;
      }
      boxes := boxes[receiver := remaining];
      found := true;
    }
  }

  lemma PurgeTwice(p: Memory, s: Memory, l: Limits, now: real)
    requires p == PurgeMemory(s, l, now)
    ensures PurgeMemory(p, l, now) == p
  {
    forall r | r in p.boxes ensures Live(p.boxes[r], now, l.ttl) == p.boxes[r] {
      LiveLater(s.boxes[r], now, now, l.ttl);
    }
  }

  /** The store on a table. A refused `put` rolls its purge back. */
  class SqliteMailboxStore {
    const limits: Limits
    var rows: seq<Row>
    var rates: Rates

    constructor (limits: Limits)
      ensures this.limits == limits && View() == Table([], map[])
    {
      this.limits := limits;
      rows, rates := [], map[];
    }

    function View(): Table
      reads this
    {
      Table(rows, rates)
    }

    method AllowSend(sender: Agent, now: real) returns (allowed: bool)
      modifies this
      ensures (View(), Allowed(allowed)) == TableStep(old(View()), limits, Op.AllowSend(sender, now))
    {
      rates := RecentRates(rates, now);
      var count := Count(rates, sender, Minute(now));
      if count >= limits.ratePerMinute {
        return false;
      }
      rates := rates[(sender, Minute(now)) := count + 1];
      allowed := true;
    }

    method Put(receiver: Agent, envelope: Envelope, size: Option<nat>, now: real, id: nat) returns (result: PutResult)
      modifies this
      ensures (View(), PutOut(result)) == TableStep(old(View()), limits, Op.Put(receiver, envelope, size, now, id))
    {
      var before := rows;
      rows := LiveRows(rows, now, limits.ttl);
      var refused := Overflow(limits, |RowsOf(rows, receiver)|, SumBytes(rows, Some(receiver)), SumBytes(rows, None),
        SizeOf(envelope, size));
      if refused.Some? {
        rows := before;
        return CapacityExceeded(refused.value);
      }
      rows := rows + [Row(receiver, Stored(id, envelope, now), SizeOf(envelope, size))];
      result := Delivered(id);
    }

    /** The page read with one row to spare is the first part of what the cursor lets through. */
    method Fetch(receiver: Agent, limit: nat, cursor: Option<Key>, now: real) returns (page: Page)
      modifies this
      ensures (View(), PageOut(page)) == TableStep(old(View()), limits, Op.Fetch(receiver, limit, cursor, now))
      ensures limit >= 1 && Distinct(RowsOf(rows, receiver)) ==> IsPage(RowsOf(rows, receiver), limit, cursor, page)
    {
      rows := LiveRows(rows, now, limits.ttl);
      page := QueryPage(After(RowsOf(rows, receiver), cursor), limit);
      if limit >= 1 && Distinct(RowsOf(rows, receiver)) {
        NextPageIsPage(RowsOf(rows, receiver), limit, cursor);
        PagesMatch(RowsOf(rows, receiver), cursor, limit);
      }
    }

    method Ack(receiver: Agent, id: nat) returns (found: bool)
      modifies this
      ensures (View(), Acknowledged(found)) == TableStep(old(View()), limits, Op.Ack(receiver, id))
    {
      var remaining := WithoutRow(rows, receiver, id);
      found := |remaining| < |rows|;
      rows := remaining;
    }

    method PendingStats(now: real) returns (count: nat, bytes: nat)
      modifies this
      ensures (View(), Stats(count, bytes)) == TableStep(old(View()), limits, Op.PendingStats(now))
    {
      rows := LiveRows(rows, now, limits.ttl);
      count, bytes := |rows|, SumBytes(rows, None);
    }
  }
}
