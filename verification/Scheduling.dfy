/** Free slots of one calendar, and what two lists of slots have in common. Times are whole
    minutes; every calendar has a fixed UTC offset. */
module Scheduling {
  import opened Types

  const STEP_MINUTES := 30
  const MAX_SLOTS := 20
  const DAY := 1440

  /** A range of wall-clock times, in minutes after midnight. */
  datatype TimeRange = TimeRange(start: int, end: int)

  /** What one side searches: the dates and the preferred ranges of the request, its own busy
      intervals and its own offset. Dates are day numbers. */
  datatype Search = Search(first: int, last: int, ranges: seq<TimeRange>, duration: int, busy: seq<Slot>, offset: int) {
    /** The instant of a wall-clock time. */
    function Instant(day: int, time: int): int {
      day * DAY + time - offset
    }

    function SlotAt(instant: int): Slot {
      Slot(instant, instant + duration, offset)
    }

    predicate Free(slot: Slot) {
      forall i :: 0 <= i < |busy| ==> !Overlaps(slot, busy[i])
    }

    /** The slot of a date, a range and a step, when it ends inside the range. */
    predicate Offers(slot: Slot, day: int, i: nat, k: nat) {
      && first <= day <= last && i < |ranges|
      && slot == SlotAt(Instant(day, ranges[i].start) + STEP_MINUTES * k)
      && slot.end <= Instant(day, ranges[i].end)
      && Free(slot)
    }

    /** The slot lies within one of the requested ranges on one of the requested dates. */
    ghost predicate Allows(slot: Slot) {
      exists day, i ::
        && first <= day <= last && 0 <= i < |ranges|
        && Instant(day, ranges[i].start) <= slot.start
             && slot.start + duration == slot.end <= Instant(day, ranges[i].end)
    }
  }

  predicate Overlaps(slot: Slot, busy: Slot) {
    slot.start < busy.end && busy.start < slot.end
  }

  /** Free slots of one range, from a cursor on. */
  function FromCursor(s: Search, cursor: int, rangeEnd: int): seq<Slot>
    decreases rangeEnd - s.duration - cursor
  {
    if cursor + s.duration > rangeEnd then []
    else (if s.Free(s.SlotAt(cursor)) then [s.SlotAt(cursor)] else []) + FromCursor(s, cursor + STEP_MINUTES, rangeEnd)
  }

  /** Free slots of one date, from a range on. */
  function FromRange(s: Search, day: int, i: nat): seq<Slot>
    requires i <= |s.ranges|
    decreases |s.ranges| - i
  {
    if i == |s.ranges| then []
    else FromCursor(s, s.Instant(day, s.ranges[i].start), s.Instant(day, s.ranges[i].end)) + FromRange(s, day, i + 1)
  }

  function FromDay(s: Search, day: int): seq<Slot>
    decreases s.last - day
  {
    if day > s.last then [] else FromRange(s, day, 0) + FromDay(s, day + 1)
  }

  /** Every free slot: by date, then by range, then by step. */
  function AllSlots(s: Search): seq<Slot> {
    FromDay(s, s.first)
  }

  function Candidates(s: Search): seq<Slot> {
    Take(AllSlots(s), MAX_SLOTS)
  }

  lemma TakeRegroups(a: seq<Slot>, b: seq<Slot>, c: seq<Slot>)
    ensures Take(a + (b + c), MAX_SLOTS) == Take(a + b + c, MAX_SLOTS)
  {
    assert a + (b + c) == a + b + c;
  }

  lemma TakeIsFull(a: seq<Slot>, b: seq<Slot>, c: seq<Slot>)
    requires |a| == MAX_SLOTS
    ensures Take(a + b, MAX_SLOTS) == Take(a + c, MAX_SLOTS) == a
  {
  }

  method IsFree(s: Search, slot: Slot) returns (free: bool)
    ensures free == s.Free(slot)
  {
    for i := 0 to |s.busy|
      invariant forall j :: 0 <= j < i ==> !Overlaps(slot, s.busy[j])
    {
      if Overlaps(slot, s.busy[i]) {
        return false;
      }
    }
    free := true;
  }

  /** `candidate_slots`: its capped loops return the first slots of the plain enumeration. */
  method CandidateSlots(s: Search) returns (slots: seq<Slot>)
    ensures slots == Candidates(s)
  {
    slots := [];
    var day := s.first;
    while day <= s.last && |slots| < MAX_SLOTS
      invariant |slots| <= MAX_SLOTS
      invariant Take(slots + FromDay(s, day), MAX_SLOTS) == Candidates(s)
    {
      ghost var later := FromDay(s, day + 1);
      TakeRegroups(slots, FromRange(s, day, 0), later);
      for i := 0 to |s.ranges|
        invariant |slots| <= MAX_SLOTS
        invariant Take(slots + FromRange(s, day, i) + later, MAX_SLOTS) == Candidates(s)
      {
        slots := ScanRange(s, day, i, slots, later);
      }
      assert slots + [] == slots;
      day := day + 1;
    }
    if |slots| == MAX_SLOTS {
      TakeIsFull(slots, FromDay(s, day), []);
    } else {
      assert slots + [] == slots;
    }
  }

  /** The innermost loop, over one range of one date. */
  method ScanRange(s: Search, day: int, i: nat, found: seq<Slot>, ghost later: seq<Slot>) returns (slots: seq<Slot>)
    requires i < |s.ranges| && |found| <= MAX_SLOTS
    ensures |slots| <= MAX_SLOTS
    ensures Take(slots + FromRange(s, day, i + 1) + later, MAX_SLOTS)
              == Take(found + FromRange(s, day, i) + later, MAX_SLOTS)
  {
    ghost var rest := FromRange(s, day, i + 1) + later;
    var cursor, rangeEnd := s.Instant(day, s.ranges[i].start), s.Instant(day, s.ranges[i].end);
    slots := found;
    assert found + FromRange(s, day, i) + later == found + (FromCursor(s, cursor, rangeEnd) + rest);
    while cursor + s.duration <= rangeEnd && |slots| < MAX_SLOTS
      invariant |slots| <= MAX_SLOTS
      invariant Take(slots + (FromCursor(s, cursor, rangeEnd) + rest), MAX_SLOTS)
             == Take(found + FromRange(s, day, i) + later, MAX_SLOTS)
      decreases rangeEnd - s.duration - cursor
    {
      var slot := s.SlotAt(cursor);
      var free := IsFree(s, slot);
      ghost var after := FromCursor(s, cursor + STEP_MINUTES, rangeEnd) + rest;
      if free {
        assert slots + (FromCursor(s, cursor, rangeEnd) + rest) == slots + [slot] + after;
        slots := slots + [slot];
      } else {
        assert FromCursor(s, cursor, rangeEnd) + rest == after;
      }
      cursor := cursor + STEP_MINUTES;
    }
    if |slots| == MAX_SLOTS {
      TakeIsFull(slots, FromCursor(s, cursor, rangeEnd) + rest, rest);
    } else {
      assert slots + (FromCursor(s, cursor, rangeEnd) + rest) == slots + rest;
    }
    assert slots + FromRange(s, day, i + 1) + later == slots + rest;
  }

  // What the enumeration holds

  lemma {:induction false} CursorIsExact(s: Search, day: int, i: nat, from: nat, slot: Slot)
    requires i < |s.ranges| && s.first <= day <= s.last
    ensures slot in FromCursor(s, s.Instant(day, s.ranges[i].start) + STEP_MINUTES * from,
              s.Instant(day, s.ranges[i].end))
       <==> exists k :: k >= from && s.Offers(slot, day, i, k)
    decreases s.Instant(day, s.ranges[i].end) - s.duration - (s.Instant(day, s.ranges[i].start) + STEP_MINUTES * from)
  {
    hide Search.Free;
    var cursor, rangeEnd := s.Instant(day, s.ranges[i].start) + STEP_MINUTES * from, s.Instant(day, s.ranges[i].end);
    OffersHere(s, day, i, from, slot);
    if cursor + s.duration <= rangeEnd {
      CursorIsExact(s, day, i, from + 1, slot);
      hide Search.Offers;
      assert (exists k :: k >= from && s.Offers(slot, day, i, k))
        <==> s.Offers(slot, day, i, from) || exists k :: k >= from + 1 && s.Offers(slot, day, i, k);
    } else {
      NothingOffered(s, day, i, from, slot);
    }
  }

  lemma OffersHere(s: Search, day: int, i: nat, k: nat, slot: Slot)
    requires i < |s.ranges| && s.first <= day <= s.last
    ensures var cursor := s.Instant(day, s.ranges[i].start) + STEP_MINUTES * k;
            s.Offers(slot, day, i, k) <==>
              cursor + s.duration <= s.Instant(day, s.ranges[i].end) && slot == s.SlotAt(cursor) && s.Free(slot)
  {
  }

  lemma NothingOffered(s: Search, day: int, i: nat, from: nat, slot: Slot)
    requires i < |s.ranges|
    requires s.Instant(day, s.ranges[i].start) + STEP_MINUTES * from + s.duration > s.Instant(day, s.ranges[i].end)
    ensures forall k :: k >= from ==> !s.Offers(slot, day, i, k)
  {
    hide Search.Free;
  }

  lemma {:induction false} RangesAreExact(s: Search, day: int, from: nat, slot: Slot)
    requires from <= |s.ranges| && s.first <= day <= s.last
    ensures slot in FromRange(s, day, from) <==> exists i, k :: from <= i && s.Offers(slot, day, i, k)
    decreases |s.ranges| - from
  {
    if from < |s.ranges| {
      CursorIsExact(s, day, from, 0, slot);
      RangesAreExact(s, day, from + 1, slot);
    }
  }

  lemma {:induction false} DaysAreExact(s: Search, from: int, slot: Slot)
    requires s.first <= from
    ensures slot in FromDay(s, from) <==> exists day, i, k :: from <= day && s.Offers(slot, day, i, k)
    decreases s.last - from
  {
    if from <= s.last {
      RangesAreExact(s, from, 0, slot);
      DaysAreExact(s, from + 1, slot);
    }
  }

  /** The enumeration holds the free slots of the requested dates and ranges, and no others. */
  lemma EnumerationIsExact(s: Search, slot: Slot)
    ensures slot in AllSlots(s) <==> exists day, i, k :: s.Offers(slot, day, i, k)
  {
    DaysAreExact(s, s.first, slot);
  }

  /** Every candidate is free and inside the requested window. */
  lemma CandidatesFit(s: Search, slot: Slot)
    requires slot in Candidates(s)
    ensures s.Free(slot) && s.Allows(slot)
  {
    EnumerationIsExact(s, slot);
    var day, i, k :| s.Offers(slot, day, i, k);
  }

  /** Ranges given in the order of the day, none of which reaches into the next. */
  ghost predicate RangesInOrder(s: Search) {
    && (forall i :: 0 <= i < |s.ranges| ==> 0 <= s.ranges[i].start <= s.ranges[i].end <= DAY)
    && (forall i, j :: 0 <= i < j < |s.ranges| ==> s.ranges[i].end <= s.ranges[j].start)
  }

  /** Slots in the order of their start, all from some instant on and over by another. */
  ghost predicate Chronological(slots: seq<Slot>, from: int, until: int) {
    && (forall i :: 0 <= i < |slots| ==> from <= slots[i].start && slots[i].end <= until)
    && (forall i, j :: 0 <= i < j < |slots| ==> slots[i].start < slots[j].start)
  }

  lemma {:induction false} CursorInOrder(s: Search, cursor: int, rangeEnd: int)
    ensures Chronological(FromCursor(s, cursor, rangeEnd), cursor, rangeEnd)
    decreases rangeEnd - s.duration - cursor
  {
    if cursor + s.duration <= rangeEnd {
      CursorInOrder(s, cursor + STEP_MINUTES, rangeEnd);
    }
  }

  lemma ChronologicalJoins(s: Search, a: seq<Slot>, b: seq<Slot>, from: int, middle: int, until: int)
    requires from <= middle <= until && s.duration >= 1
    requires Chronological(a, from, middle) && Chronological(b, middle, until)
    requires forall x :: x in a ==> x.end == x.start + s.duration
    ensures Chronological(a + b, from, until)
  {
    forall i | 0 <= i < |a| ensures a[i].start < middle {
      assert a[i] in a;
    }
  }

  lemma {:induction false} RangesStayInOrder(s: Search, day: int, i: nat)
    requires RangesInOrder(s) && s.duration >= 1 && i <= |s.ranges|
    ensures var from := if i < |s.ranges| then s.ranges[i].start else DAY;
            Chronological(FromRange(s, day, i), s.Instant(day, from), s.Instant(day, DAY))
    ensures forall x :: x in FromRange(s, day, i) ==> x.end == x.start + s.duration
    decreases |s.ranges| - i
  {
    if i < |s.ranges| {
      var from, until := s.Instant(day, s.ranges[i].start), s.Instant(day, s.ranges[i].end);
      CursorInOrder(s, from, until);
      CursorLasts(s, from, until);
      RangesStayInOrder(s, day, i + 1);
      ChronologicalJoins(s, FromCursor(s, from, until), FromRange(s, day, i + 1), from, until, s.Instant(day, DAY));
    }
  }

  lemma {:induction false} CursorLasts(s: Search, cursor: int, rangeEnd: int)
    ensures forall x :: x in FromCursor(s, cursor, rangeEnd) ==> x.end == x.start + s.duration
    decreases rangeEnd - s.duration - cursor
  {
    if cursor + s.duration <= rangeEnd {
      CursorLasts(s, cursor + STEP_MINUTES, rangeEnd);
    }
  }

  lemma {:induction false} DaysStayInOrder(s: Search, day: int)
    requires RangesInOrder(s) && s.duration >= 1 && day <= s.last + 1
    ensures Chronological(FromDay(s, day), s.Instant(day, 0), s.Instant(s.last + 1, 0))
    decreases s.last - day
  {
    if day <= s.last {
      RangesStayInOrder(s, day, 0);
      DaysStayInOrder(s, day + 1);
      ChronologicalJoins(s, FromRange(s, day, 0), FromDay(s, day + 1), s.Instant(day, 0), s.Instant(day, DAY),
        s.Instant(s.last + 1, 0));
    }
  }

  /** With the ranges in order, the candidates are the earliest free slots, without repeats:
      any free slot that is not among them starts after all of them, and then there are 20. */
  lemma EarliestFirst(s: Search)
    requires RangesInOrder(s) && s.duration >= 1
    ensures var c := Candidates(s);
            && (forall i, j :: 0 <= i < j < |c| ==> c[i].start < c[j].start)
            && (forall x, y :: x in c && y in AllSlots(s) && y !in c ==> |c| == MAX_SLOTS && x.start < y.start)
  {
    if s.first <= s.last + 1 {
      DaysStayInOrder(s, s.first);
    }
  }

  // Common slots

  /** The same start and end, however they are written. */
  predicate SameSlot(a: Slot, b: Slot) {
    a.start == b.start && a.end == b.end
  }

  predicate Has(slots: seq<Slot>, slot: Slot) {
    exists i :: 0 <= i < |slots| && SameSlot(slot, slots[i])
  }

  /** The slots of `a` that `b` has too, in the order of `a`. */
  function Intersect(a: seq<Slot>, b: seq<Slot>): seq<Slot> {
    if a == [] then [] else (if Has(b, a[0]) then [a[0]] else []) + Intersect(a[1..], b)
  }

  /** A slot is common if and only if both lists have it, and the first common slot is the first
      of `a` that `b` has. */
  lemma {:induction false} IntersectIsExact(a: seq<Slot>, b: seq<Slot>)
    ensures forall x :: x in Intersect(a, b) <==> x in a && Has(b, x)
    ensures Intersect(a, b) != [] ==> exists i :: 0 <= i < |a| && a[i] == Intersect(a, b)[0]
                                                  && forall j :: 0 <= j < i ==> !Has(b, a[j])
  {
    if a != [] {
      IntersectIsExact(a[1..], b);
      assert a == [a[0]] + a[1..];
      if Has(b, a[0]) {
        assert Intersect(a, b)[0] == a[0];
      } else if Intersect(a, b) != [] {
        var i :| 0 <= i < |a[1..]| && a[1..][i] == Intersect(a[1..], b)[0] && forall j :: 0 <= j < i ==>
          !Has(b, a[1..][j]);
        forall j | 0 <= j < i + 1 ensures !Has(b, a[j]) {
          assert j > 0 ==> a[j] == a[1..][j - 1];
        }
        assert a[i + 1] == Intersect(a, b)[0];
      }
    }
  }

  /** Two lists meet when they have a slot in common. */
  ghost predicate Meet(a: seq<Slot>, b: seq<Slot>) {
    exists i :: 0 <= i < |a| && Has(b, a[i])
  }

  lemma MeetIsSymmetric(a: seq<Slot>, b: seq<Slot>)
    ensures Meet(a, b) <==> Meet(b, a)
  {
    if Meet(a, b) {
      var i :| 0 <= i < |a| && Has(b, a[i]);
      var j :| 0 <= j < |b| && SameSlot(a[i], b[j]);
      assert SameSlot(b[j], a[i]);
      assert Has(a, b[j]);
    }
    if Meet(b, a) {
      var i :| 0 <= i < |b| && Has(a, b[i]);
      var j :| 0 <= j < |a| && SameSlot(b[i], a[j]);
      assert SameSlot(a[j], b[i]);
      assert Has(b, a[j]);
    }
  }

  lemma IntersectMeets(a: seq<Slot>, b: seq<Slot>)
    ensures Intersect(a, b) != [] <==> Meet(a, b)
  {
    IntersectIsExact(a, b);
    if Intersect(a, b) != [] {
      assert Intersect(a, b)[0] in Intersect(a, b);
    }
    if Meet(a, b) {
      var i :| 0 <= i < |a| && Has(b, a[i]);
      assert a[i] in Intersect(a, b);
    }
  }

  // Busy intervals

  /** A busy entry of a schedule memory; without an offset it is in the owner's local time. */
  datatype BusyItem = BusyItem(start: int, end: int, offset: Option<int>) {
    function Interval(localOffset: int): Slot {
      var o := if offset.Some? then offset.value else localOffset;
      Slot(start - o, end - o, o)
    }
  }

  /** An exportable memory. `disclosed` says whether the policy for the peer lets it be used in a
      remote negotiation; the local driver does not ask. */
  datatype Memory = Memory(isSchedule: bool, busy: seq<BusyItem>, disclosed: bool)

  function Intervals(items: seq<BusyItem>, offset: int): seq<Slot> {
    seq(|items|, i requires 0 <= i < |items| => items[i].Interval(offset))
  }

  function BusyOf(memories: seq<Memory>, offset: int): seq<Slot> {
    if memories == [] then []
    else
      var last := memories[|memories| - 1];
      BusyOf(memories[..|memories| - 1], offset) + if last.isSchedule then Intervals(last.busy, offset) else []
  }

  method CollectBusy(memories: seq<Memory>, offset: int) returns (busy: seq<Slot>)
    ensures busy == BusyOf(memories, offset)
  {
    busy := [];
    for m := 0 to |memories|
      invariant busy == BusyOf(memories[..m], offset)
    {
      assert memories[..m + 1][..m] == memories[..m];
      if memories[m].isSchedule {
        var items := memories[m].busy;
        for j := 0 to |items|
          invariant busy == BusyOf(memories[..m], offset) + Intervals(items[..j], offset)
        {
          assert Intervals(items[..j + 1], offset) == Intervals(items[..j], offset) + [items[j].Interval(offset)];
          busy := busy + [items[j].Interval(offset)];
        }
        assert items[..|items|] == items;
      }
    }
    assert memories[..|memories|] == memories;
  }

  /** Entry `j` of memory `m` is a schedule entry for these instants: its times are read with its own
      offset, or with the owner's when it has none. */
  ghost predicate Mentions(memories: seq<Memory>, m: nat, j: nat, x: Slot, offset: int) {
    && m < |memories| && memories[m].isSchedule && j < |memories[m].busy|
    && var item := memories[m].busy[j];
       && (item.offset.Some? ==> x.offset == item.offset.value) && (item.offset.None? ==> x.offset == offset)
       && x.start == item.start - x.offset && x.end == item.end - x.offset
  }

  /** The busy list has what the schedule memories mention, and nothing else. */
  lemma {:induction false} BusyIsExact(memories: seq<Memory>, offset: int, x: Slot)
    ensures x in BusyOf(memories, offset) <==> exists m: nat, j: nat :: Mentions(memories, m, j, x, offset)
  {
    if memories != [] {
      var n := |memories| - 1;
      BusyIsExact(memories[..n], offset, x);
      forall m: nat, j: nat | m < n ensures Mentions(memories, m, j, x, offset) <==>
        Mentions(memories[..n], m, j, x, offset) {
      }
      if m: nat, j: nat :| Mentions(memories, m, j, x, offset) {
        if m == n {
          assert Intervals(memories[n].busy, offset)[j] == x;
        } else {
          assert Mentions(memories[..n], m, j, x, offset);
        }
      }
      if memories[n].isSchedule && x in Intervals(memories[n].busy, offset) {
        var j :| 0 <= j < |memories[n].busy| && x == Intervals(memories[n].busy, offset)[j];
        assert Mentions(memories, n, j, x, offset);
      } else if x in BusyOf(memories, offset) {
        var m: nat, j: nat :| Mentions(memories[..n], m, j, x, offset);
        assert Mentions(memories, m, j, x, offset);
      }
    }
  }
}
