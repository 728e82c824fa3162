/** What purging and acknowledging do to boxes and to the rows of a table. */
module MailboxRows {
  import opened Mailbox
  import opened MailboxBackends

  lemma {:induction false} RowsOfLive(rows: seq<Row>, r: Agent, now: real, ttl: real)
    ensures RowsOf(LiveRows(rows, now, ttl), r) == Live(RowsOf(rows, r), now, ttl)
  {
    if rows != [] {
      var n := |rows| - 1;
      var front, last := rows[..n], rows[n];
      assert rows == front + [last];
      RowsOfLive(front, r, now, ttl);
      LiveRowsConcat(front, last, now, ttl);
      RowsOfConcat(front, last, r);
      RowsOfConcat(LiveRows(front, now, ttl), last, r);
      LiveConcat(RowsOf(front, r), last.message, now, ttl);
      hide Live, RowsOf, LiveRows;
    }
  }

  lemma BoxPurged(m: Memory, l: Limits, now: real, r: Agent)
    ensures Box(PurgeMemory(m, l, now).boxes, r) == Live(Box(m.boxes, r), now, l.ttl)
  {
  }

  lemma {:induction false} AckBox(box: seq<Stored>, id: nat, t: real, ttl: real)
    ensures Live(WithoutId(box, id), t, ttl) == WithoutId(Live(box, t, ttl), id)
  {
    if box != [] {
      var n := |box| - 1;
      var front, last := box[..n], box[n];
      assert box == front + [last];
      AckBox(front, id, t, ttl);
      WithoutIdConcat(front, last, id);
      LiveConcat(front, last, t, ttl);
      LiveConcat(WithoutId(front, id), last, t, ttl);
      WithoutIdConcat(Live(front, t, ttl), last, id);
      hide Live, WithoutId;
    }
  }

  predicate Contains(box: seq<Stored>, id: nat) {
    exists i :: 0 <= i < |box| && box[i].id == id
  }

  lemma {:induction false} WithoutIdFinds(box: seq<Stored>, id: nat)
    ensures |WithoutId(box, id)| <= |box|
    ensures |WithoutId(box, id)| == |box| ==> WithoutId(box, id) == box
    ensures Contains(box, id) <==> |WithoutId(box, id)| < |box|
  {
    if box != [] {
      var n := |box| - 1;
      var front, last := box[..n], box[n];
      assert box == front + [last];
      WithoutIdFinds(front, id);
      WithoutIdConcat(front, last, id);
      ContainsConcat(front, last, id);
      hide WithoutId, Contains;
    }
  }

  lemma ContainsConcat(front: seq<Stored>, last: Stored, id: nat)
    ensures Contains(front + [last], id) <==> Contains(front, id) || last.id == id
  {
    var box := front + [last];
    if Contains(front, id) {
      var i :| 0 <= i < |front| && front[i].id == id;
      assert box[i].id == id;
    } else {
      assert box[|front|] == last && forall i :: 0 <= i < |front| ==> box[i] == front[i];
    }
  }

  lemma LiveContained(box: seq<Stored>, t: real, ttl: real, id: nat)
    requires Contains(Live(box, t, ttl), id)
    ensures Contains(box, id)
  {
    AckBox(box, id, t, ttl);
    WithoutIdFinds(box, id);
    WithoutIdFinds(Live(box, t, ttl), id);
  }

  lemma {:induction false} AckRows(rows: seq<Row>, receiver: Agent, id: nat, r: Agent)
    ensures RowsOf(WithoutRow(rows, receiver, id), r) == if r == receiver then WithoutId(RowsOf(rows, r), id)
              else RowsOf(rows, r)
    ensures forall x :: x in WithoutRow(rows, receiver, id) ==> x in rows
  {
    if rows != [] {
      var n := |rows| - 1;
      var front, last := rows[..n], rows[n];
      assert rows == front + [last];
      AckRows(front, receiver, id, r);
      WithoutRowConcat(front, last, receiver, id);
      RowsOfConcat(front, last, r);
      RowsOfConcat(WithoutRow(front, receiver, id), last, r);
      WithoutIdConcat(RowsOf(front, r), last.message, id);
      hide RowsOf, WithoutRow, WithoutId;
    }
  }

  lemma {:induction false} WithoutRowFinds(rows: seq<Row>, receiver: Agent, id: nat)
    ensures |WithoutRow(rows, receiver, id)| <= |rows|
    ensures |WithoutRow(rows, receiver, id)| < |rows| <==>
              |WithoutId(RowsOf(rows, receiver), id)| < |RowsOf(rows, receiver)|
  {
    if rows != [] {
      var n := |rows| - 1;
      var front, last := rows[..n], rows[n];
      assert rows == front + [last];
      WithoutRowFinds(front, receiver, id);
      WithoutRowConcat(front, last, receiver, id);
      RowsOfConcat(front, last, receiver);
      WithoutIdConcat(RowsOf(front, receiver), last.message, id);
      WithoutIdFinds(RowsOf(front, receiver), id);
      hide RowsOf, WithoutRow, WithoutId;
    }
  }
}
