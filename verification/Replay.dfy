/** Exactly-once handling: the timestamp window of an envelope and the expiring table of message
    ids that have been seen. Times and durations count in one unit. */
module Replay {

  const WINDOW := 300
  const TTL := 3600

  datatype Envelope = Envelope(id: nat, createdAt: int)

  type Seen = map<nat, int>

  function Purged(seen: Seen, now: int): Seen {
    map id | id in seen && seen[id] >= now :: seen[id]
  }

  /** The table of ids with the time at which each may be forgotten. */
  class ReplayGuard {
    var seen: Seen

    constructor ()
      ensures seen == map[]
    {
      seen := map[];
    }

    /** Refuses a known id and records an unknown one; what has expired is forgotten first. */
    method CheckAndRecord(id: nat, now: int, ttl: int) returns (unknown: bool)
      modifies this
      ensures unknown <==> !(id in old(seen) && old(seen)[id] >= now)
      ensures seen == if unknown then Purged(old(seen), now)[id := now + ttl] else Purged(old(seen), now)
    {
      seen := Purged(seen, now);
      unknown := id !in seen;
      if unknown {
        seen := seen[id := now + ttl];
      }
    }
  }

  function Abs(x: int): nat {
    if x < 0 then -x else x
  }

  /** What becomes of an envelope that passes the checks. */
  datatype Fate = Handled | FailedAndRolledBack | FailedAfterCommit

  /** One presentation of an envelope: the clock is read for the window, and again for the table. */
  datatype Arrival = Arrival(envelope: Envelope, verifiedAt: int, checkedAt: int, fate: Fate)

  predicate InWindow(a: Arrival, window: int) {
    Abs(a.verifiedAt - a.envelope.createdAt) <= window
  }

  predicate Unknown(seen: Seen, a: Arrival) {
    !(a.envelope.id in seen && seen[a.envelope.id] >= a.checkedAt)
  }

  /** The envelope is processed to the end. */
  predicate IsHandled(seen: Seen, a: Arrival, window: int) {
    InWindow(a, window) && Unknown(seen, a) && a.fate == Handled
  }

  /** The table afterwards. A failing handler takes its entry back, and the purge with it, unless
      reading a policy has already committed them. */
  function AfterArrival(seen: Seen, a: Arrival, window: int, ttl: int): Seen {
    if !InWindow(a, window) then seen
    else if !Unknown(seen, a) then Purged(seen, a.checkedAt)
    else if a.fate == FailedAndRolledBack then seen
    else Purged(seen, a.checkedAt)[a.envelope.id := a.checkedAt + ttl]
  }

  function SeenAfter(arrivals: seq<Arrival>, window: int, ttl: int): Seen {
    if arrivals == [] then map[]
    else AfterArrival(SeenAfter(arrivals[..|arrivals| - 1], window, ttl), arrivals[|arrivals| - 1], window, ttl)
  }

  predicate HandledAt(arrivals: seq<Arrival>, i: nat, window: int, ttl: int)
    requires i < |arrivals|
  {
    IsHandled(SeenAfter(arrivals[..i], window, ttl), arrivals[i], window)
  }

  /** The clock never goes back, and the table is consulted at most `delay` after the window. */
  ghost predicate Timely(arrivals: seq<Arrival>, delay: int) {
    && (forall i :: 0 <= i < |arrivals| ==>
         arrivals[i].verifiedAt <= arrivals[i].checkedAt <= arrivals[i].verifiedAt + delay)
    && (forall i, j :: 0 <= i < j < |arrivals| ==> arrivals[i].checkedAt <= arrivals[j].verifiedAt)
  }

  ghost predicate AtMostOnce(arrivals: seq<Arrival>, window: int, ttl: int) {
    forall i, j :: 0 <= i < j < |arrivals| && arrivals[i].envelope == arrivals[j].envelope ==>
      !(HandledAt(arrivals, i, window, ttl) && HandledAt(arrivals, j, window, ttl))
  }

  lemma SeenStep(arrivals: seq<Arrival>, k: nat, window: int, ttl: int)
    requires k < |arrivals|
    ensures SeenAfter(arrivals[..k + 1], window, ttl)
         == AfterArrival(SeenAfter(arrivals[..k], window, ttl), arrivals[k], window, ttl)
  {
    assert arrivals[..k + 1][..k] == arrivals[..k];
  }

  /** The entry of a handled envelope stays until its time has come, whatever arrives in between. */
  lemma {:induction false} EntryStays(arrivals: seq<Arrival>, i: nat, k: nat, window: int, ttl: int)
    requires i < k <= |arrivals| && HandledAt(arrivals, i, window, ttl)
    requires forall j :: i < j < k ==> arrivals[j].checkedAt <= arrivals[i].checkedAt + ttl
    ensures var seen := SeenAfter(arrivals[..k], window, ttl);
            arrivals[i].envelope.id in seen && seen[arrivals[i].envelope.id] == arrivals[i].checkedAt + ttl
  {
    SeenStep(arrivals, k - 1, window, ttl);
    if i < k - 1 {
      EntryStays(arrivals, i, k - 1, window, ttl);
    }
  }

  lemma LongEnoughMeansOnce(arrivals: seq<Arrival>, window: int, ttl: int, delay: int)
    requires Timely(arrivals, delay) && 2 * window + delay <= ttl
    ensures AtMostOnce(arrivals, window, ttl)
  {
    forall i, j | 0 <= i < j < |arrivals| && arrivals[i].envelope == arrivals[j].envelope
                  && HandledAt(arrivals, i, window, ttl)
      ensures !HandledAt(arrivals, j, window, ttl)
    {
      if InWindow(arrivals[j], window) {
        assert arrivals[j].checkedAt <= arrivals[i].checkedAt + ttl;
        EntryStays(arrivals, i, j, window, ttl);
      }
    }
  }

  /** An envelope that comes early, is handled, and comes again late. */
  function EarlyAndLate(window: int, delay: int): seq<Arrival> {
    var e := Envelope(0, 0);
    [Arrival(e, -window, -window, Handled), Arrival(e, window, window + delay, Handled)]
  }

  lemma TooShortMeansTwice(window: nat, ttl: int, delay: nat)
    requires ttl < 2 * window + delay
    ensures Timely(EarlyAndLate(window, delay), delay)
    ensures !AtMostOnce(EarlyAndLate(window, delay), window, ttl)
  {
    var run := EarlyAndLate(window, delay);
    assert run[..0] == [] && run[..1] == [run[0]] && run[..1][..0] == [];
    assert HandledAt(run, 0, window, ttl);
    assert SeenAfter(run[..1], window, ttl) == map[0 := ttl - window];
    assert HandledAt(run, 1, window, ttl);
  }

  /** Exactly-once, exactly: no run handles an envelope twice if and only if entries live at least
      twice the window plus the time that may pass between the two clock readings. */
  lemma ExactlyOnceIsExact(window: nat, ttl: int, delay: nat)
    ensures (forall arrivals :: Timely(arrivals, delay) ==> AtMostOnce(arrivals, window, ttl))
        <==> 2 * window + delay <= ttl
  {
    if 2 * window + delay <= ttl {
      forall arrivals | Timely(arrivals, delay) ensures AtMostOnce(arrivals, window, ttl) {
        LongEnoughMeansOnce(arrivals, window, ttl, delay);
      }
    } else {
      TooShortMeansTwice(window, ttl, delay);
    }
  }

  /** With the shipped constants a handler may even lose 3000 seconds between the readings. */
  lemma ShippedConstantsMeanOnce(arrivals: seq<Arrival>)
    requires Timely(arrivals, 3000)
    ensures AtMostOnce(arrivals, WINDOW, TTL)
  {
    LongEnoughMeansOnce(arrivals, WINDOW, TTL, 3000);
  }

  // When a redelivered envelope is handled

  /** The clock readings for the table never go back. */
  ghost predicate InOrder(arrivals: seq<Arrival>) {
    forall i, j :: 0 <= i < j < |arrivals| ==> arrivals[i].checkedAt <= arrivals[j].checkedAt
  }

  /** The presentation is remembered: it came in its window, no earlier one of the same envelope was
      still remembered, and no error has taken it back. */
  ghost predicate Remembered(arrivals: seq<Arrival>, i: nat, window: int, ttl: int)
    requires i < |arrivals|
    decreases i, 1
  {
    && -window <= arrivals[i].verifiedAt - arrivals[i].envelope.createdAt <= window
    && arrivals[i].fate != FailedAndRolledBack && Forgotten(arrivals, i, arrivals[i].envelope.id, window, ttl)
  }

  /** What was remembered of this id before presentation `i` has lived for longer than `ttl` by then. */
  ghost predicate Forgotten(arrivals: seq<Arrival>, i: nat, id: nat, window: int, ttl: int)
    requires i < |arrivals|
    decreases i, 0
  {
    forall j: nat :: j < i && arrivals[j].envelope.id == id && Remembered(arrivals, j, window, ttl) ==>
      arrivals[j].checkedAt + ttl < arrivals[i].checkedAt
  }

  /** The table has exactly what is remembered. */
  lemma {:induction false} TableRemembers(arrivals: seq<Arrival>, k: nat, id: nat, now: int, window: int, ttl: int)
    requires InOrder(arrivals) && k <= |arrivals| && forall j :: 0 <= j < k ==> arrivals[j].checkedAt <= now
    ensures var seen := SeenAfter(arrivals[..k], window, ttl);
            (id in seen && now <= seen[id]) <==>
              exists j: nat :: j < k && arrivals[j].envelope.id == id && Remembered(arrivals, j, window, ttl)
                               && now <= arrivals[j].checkedAt + ttl
  {
    if k > 0 {
      var last := arrivals[k - 1];
      SeenStep(arrivals, k - 1, window, ttl);
      TableRemembers(arrivals, k - 1, id, now, window, ttl);
      TableRemembers(arrivals, k - 1, last.envelope.id, last.checkedAt, window, ttl);
      RememberedIs(arrivals, k - 1, window, ttl);
      hide SeenAfter, Remembered;
    }
  }

  lemma RememberedIs(arrivals: seq<Arrival>, i: nat, window: int, ttl: int)
    requires i < |arrivals|
    ensures Remembered(arrivals, i, window, ttl) <==>
              && InWindow(arrivals[i], window) && arrivals[i].fate != FailedAndRolledBack
              && forall j: nat :: j < i && arrivals[j].envelope.id == arrivals[i].envelope.id
                                  && Remembered(arrivals, j, window, ttl) ==>
                   arrivals[j].checkedAt + ttl < arrivals[i].checkedAt
  {
  }

  /** An envelope is handled exactly when it comes in its window, its handler succeeds, and everything
      that was remembered of its id has been forgotten; an attempt that was rolled back does not
      count. */
  lemma HandledExactly(arrivals: seq<Arrival>, i: nat, window: int, ttl: int)
    requires InOrder(arrivals) && i < |arrivals|
    ensures HandledAt(arrivals, i, window, ttl) <==>
              && -window <= arrivals[i].verifiedAt - arrivals[i].envelope.createdAt <= window
              && arrivals[i].fate == Handled && Forgotten(arrivals, i, arrivals[i].envelope.id, window, ttl)
  {
    TableRemembers(arrivals, i, arrivals[i].envelope.id, arrivals[i].checkedAt, window, ttl);
    hide SeenAfter, Remembered;
  }

  /** Redelivery after failures that were rolled back: the first attempt that succeeds is handled. */
  lemma RedeliveredIsHandled(arrivals: seq<Arrival>, i: nat, window: int, ttl: int)
    requires InOrder(arrivals) && i < |arrivals| && InWindow(arrivals[i], window) && arrivals[i].fate == Handled
    requires forall j :: 0 <= j < i && arrivals[j].envelope.id == arrivals[i].envelope.id ==>
               arrivals[j].fate == FailedAndRolledBack
    ensures HandledAt(arrivals, i, window, ttl)
  {
    HandledExactly(arrivals, i, window, ttl);
    hide HandledAt;
  }

  /** With the shipped constants: 300 for the window, and 3600 for the memory. */
  lemma ShippedHandling(arrivals: seq<Arrival>, i: nat)
    requires InOrder(arrivals) && i < |arrivals|
    ensures HandledAt(arrivals, i, WINDOW, TTL) <==>
              && -300 <= arrivals[i].verifiedAt - arrivals[i].envelope.createdAt <= 300
              && arrivals[i].fate == Handled && Forgotten(arrivals, i, arrivals[i].envelope.id, 300, 3600)
  {
    HandledExactly(arrivals, i, WINDOW, TTL);
    hide HandledAt;
  }
}
