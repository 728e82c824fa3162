/** The Relay's mailbox: what a stored message is, and the arithmetic that both backends share. */
module Mailbox {
  import opened Types

  datatype Agent = Agent(number: nat)

  /** A mailbox never looks into an envelope: all that matters of its content is the length of its
      compact JSON, in bytes. */
  datatype Envelope = Envelope(content: nat, length: nat)

  /** Delivery ids are hexadecimal numbers of one length: they sort as numbers do. */
  datatype Stored = Stored(id: nat, envelope: Envelope, at: real) {
    function SortKey(): Key {
      Key(at, id)
    }
  }

  datatype Key = Key(at: real, id: nat) {
    predicate Below(other: Key) {
      at < other.at || (at == other.at && id < other.id)
    }
  }

  datatype Limits = Limits(
    ttl: real,
    ratePerMinute: nat,
    maxMessages: nat,
    maxReceiverBytes: nat,
    maxTotalBytes: nat
  )

  datatype Scope = ReceiverMessages | ReceiverBytes | TotalBytes

  datatype PutResult = Delivered(id: nat) | CapacityExceeded(scope: Scope)

  datatype Page = Page(items: seq<Stored>, next: Option<Key>)

  function Minute(now: real): int {
    (now / 60.0).Floor
  }

  /** The messages whose time to live has not passed. */
  function Live(box: seq<Stored>, now: real, ttl: real): seq<Stored> {
    if box == [] then []
    else
      var last := box[|box| - 1];
      Live(box[..|box| - 1], now, ttl) + if now - last.at < ttl then [last] else []
  }

  function Bytes(box: seq<Stored>): nat {
    if box == [] then 0 else Bytes(box[..|box| - 1]) + box[|box| - 1].envelope.length
  }

  /** The capacity checks of `put`, in their order. */
  function Overflow(l: Limits, count: nat, receiverBytes: nat, totalBytes: nat, size: nat): Option<Scope> {
    if count >= l.maxMessages then Some(ReceiverMessages)
    else if receiverBytes + size > l.maxReceiverBytes then Some(ReceiverBytes)
    else if totalBytes + size > l.maxTotalBytes then Some(TotalBytes)
    else None
  }

  function SizeOf(envelope: Envelope, size: Option<nat>): nat {
    if size.Some? then size.value else envelope.length
  }

  function Insert(sorted: seq<Stored>, m: Stored): seq<Stored> {
    if sorted == [] || !m.SortKey().Below(sorted[|sorted| - 1].SortKey()) then sorted + [m]
    else Insert(sorted[..|sorted| - 1], m) + [sorted[|sorted| - 1]]
  }

  /** By storage time, then by delivery id. */
  function Sort(box: seq<Stored>): seq<Stored> {
    if box == [] then [] else Insert(Sort(box[..|box| - 1]), box[|box| - 1])
  }

  /** The messages after a cursor. */
  function After(box: seq<Stored>, cursor: Option<Key>): seq<Stored> {
    if cursor.None? then box
    else if box == [] then []
    else
      var last := box[|box| - 1];
      After(box[..|box| - 1], cursor) + if cursor.value.Below(last.SortKey()) then [last] else []
  }

  /** A page is no larger than its limit, and names its last message when more follow. */
  function PageOf(sorted: seq<Stored>, limit: nat): Page
    requires limit >= 1
  {
    var items := Take(sorted, limit);
    Page(items, if |sorted| > |items| then Some(items[|items| - 1].SortKey()) else None)
  }

  predicate Sorted(box: seq<Stored>) {
    forall i, j :: 0 <= i < j < |box| ==> !box[j].SortKey().Below(box[i].SortKey())
  }

  lemma {:induction false} InsertAdds(sorted: seq<Stored>, m: Stored)
    ensures multiset(Insert(sorted, m)) == multiset(sorted) + multiset{m}
  {
    if sorted != [] {
      var n := |sorted| - 1;
      assert sorted == sorted[..n] + [sorted[n]];
      InsertAdds(sorted[..n], m);
    }
  }

  /** A sorted box stays sorted when nothing in it sorts after the message put at its end. */
  lemma SortedGrows(front: seq<Stored>, last: Stored)
    requires Sorted(front) && forall x :: x in front ==> !last.SortKey().Below(x.SortKey())
    ensures Sorted(front + [last])
  {
  }

  lemma {:induction false} InsertSorted(sorted: seq<Stored>, m: Stored)
    requires Sorted(sorted)
    ensures Sorted(Insert(sorted, m))
  {
    if sorted != [] {
      var n := |sorted| - 1;
      var front, last := sorted[..n], sorted[n];
      if m.SortKey().Below(last.SortKey()) {
        InsertSorted(front, m);
        InsertAdds(front, m);
        hide Insert;
        forall x | x in Insert(front, m) ensures !last.SortKey().Below(x.SortKey()) {
          assert x in multiset(Insert(front, m));
          assert x in front || x == m;
        }
        SortedGrows(Insert(front, m), last);
      } else {
        hide Insert;
        forall x | x in sorted ensures !m.SortKey().Below(x.SortKey()) {
          var i :| 0 <= i < |sorted| && sorted[i] == x;
          assert i < n ==> !last.SortKey().Below(x.SortKey());
        }
        SortedGrows(sorted, m);
      }
    }
  }

  lemma {:induction false} SortSorts(box: seq<Stored>)
    ensures Sorted(Sort(box)) && multiset(Sort(box)) == multiset(box)
  {
    if box != [] {
      var n := |box| - 1;
      assert box == box[..n] + [box[n]];
      SortSorts(box[..n]);
      InsertSorted(Sort(box[..n]), box[n]);
      InsertAdds(Sort(box[..n]), box[n]);
    }
  }

  lemma AfterConcat(a: seq<Stored>, m: Stored, cursor: Option<Key>)
    ensures After(a + [m], cursor)
         == After(a, cursor) + if cursor.None? || cursor.value.Below(m.SortKey()) then [m] else []
  {
    assert (a + [m])[..|a|] == a;
  }

  lemma {:induction false} AfterNone(sorted: seq<Stored>, cursor: Option<Key>)
    requires cursor.Some? && forall x :: x in sorted ==> !cursor.value.Below(x.SortKey())
    ensures After(sorted, cursor) == []
  {
    if sorted != [] {
      AfterNone(sorted[..|sorted| - 1], cursor);
    }
  }

  predicate Passes(m: Stored, cursor: Option<Key>) {
    cursor.None? || cursor.value.Below(m.SortKey())
  }

  /** What a cursor lets through stays sorted behind anything it stops. */
  lemma NothingPasses(sorted: seq<Stored>, cursor: Option<Key>)
    requires Sorted(sorted) && sorted != [] && !Passes(sorted[|sorted| - 1], cursor)
    ensures After(sorted, cursor) == []
  {
    var last := sorted[|sorted| - 1];
    forall x | x in sorted ensures !cursor.value.Below(x.SortKey()) {
      var i :| 0 <= i < |sorted| && sorted[i] == x;
      assert i < |sorted| - 1 ==> !last.SortKey().Below(x.SortKey());
    }
    AfterNone(sorted, cursor);
  }

  lemma InsertInConcat(front: seq<Stored>, last: Stored, m: Stored)
    ensures Insert(front + [last], m)
         == if m.SortKey().Below(last.SortKey()) then Insert(front, m) + [last] else front + [last] + [m]
  {
    assert (front + [last])[..|front|] == front;
  }

  lemma {:induction false} AfterInsert(sorted: seq<Stored>, m: Stored, cursor: Option<Key>)
    requires Sorted(sorted)
    ensures After(Insert(sorted, m), cursor)
         == if Passes(m, cursor) then Insert(After(sorted, cursor), m) else After(sorted, cursor)
  {
    if sorted == [] {
      AfterConcat([], m, cursor);
      assert [] + [m] == [m];
    } else {
      var n := |sorted| - 1;
      var front, last := sorted[..n], sorted[n];
      assert sorted == front + [last];
      AfterConcat(front, last, cursor);
      InsertInConcat(front, last, m);
      InsertInConcat(After(front, cursor), last, m);
      AfterInsert(front, m, cursor);
      hide After, Insert;
      if m.SortKey().Below(last.SortKey()) {
        AfterConcat(Insert(front, m), last, cursor);
      } else {
        AfterConcat(sorted, m, cursor);
        assert Passes(m, cursor) && !Passes(last, cursor) ==> After(sorted, cursor) == [] by {
          if !Passes(last, cursor) {
            NothingPasses(sorted, cursor);
          }
        }
        InsertAlone(m);
        assert [] + [m] == [m];
      }
    }
  }

  lemma InsertAlone(m: Stored)
    ensures Insert([], m) == [m]
  {
  }

  lemma SortConcat(a: seq<Stored>, m: Stored)
    ensures Sort(a + [m]) == Insert(Sort(a), m)
  {
    assert (a + [m])[..|a|] == a;
  }

  /** Filtering by the cursor before sorting or after it is the same. */
  lemma {:induction false} AfterSort(box: seq<Stored>, cursor: Option<Key>)
    ensures After(Sort(box), cursor) == Sort(After(box, cursor))
  {
    if box != [] && cursor.Some? {
      var n := |box| - 1;
      var front, last := box[..n], box[n];
      assert box == front + [last];
      AfterSort(front, cursor);
      SortSorts(front);
      SortConcat(front, last);
      AfterInsert(Sort(front), last, cursor);
      AfterConcat(front, last, cursor);
      SortConcat(After(front, cursor), last);
      hide After, Sort, Insert;
      assert After(front, cursor) + [] == After(front, cursor);
    }
  }

  lemma LiveConcat(a: seq<Stored>, m: Stored, now: real, ttl: real)
    ensures Live(a + [m], now, ttl) == if now - m.at < ttl then Live(a, now, ttl) + [m] else Live(a, now, ttl)
  {
    assert (a + [m])[..|a|] == a;
  }

  lemma BytesConcat(a: seq<Stored>, m: Stored)
    ensures Bytes(a + [m]) == Bytes(a) + m.envelope.length
  {
    assert (a + [m])[..|a|] == a;
  }

  /** What expires stays expired. */
  lemma {:induction false} LiveLater(box: seq<Stored>, t: real, now: real, ttl: real)
    requires t <= now
    ensures Live(Live(box, t, ttl), now, ttl) == Live(box, now, ttl)
  {
    if box != [] {
      var n := |box| - 1;
      assert box == box[..n] + [box[n]];
      LiveConcat(box[..n], box[n], t, ttl);
      LiveConcat(box[..n], box[n], now, ttl);
      LiveConcat(Live(box[..n], t, ttl), box[n], now, ttl);
      LiveLater(box[..n], t, now, ttl);
    }
  }
}
