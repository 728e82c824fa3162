/** Calendars and rules as an owner reads them: by the clock on the owner's wall. */
module CalendarClock {
  import opened Types
  import opened Scheduling
  import opened MeetingSchedule

  /** So many minutes from a time of a day on, on a clock with this offset. */
  function OnWall(day: int, time: int, minutes: int, offset: int): Slot {
    Slot(1440 * day + time - offset, 1440 * day + time + minutes - offset, offset)
  }

  /** What has to be added to an entry's times to read them on the owner's clock: nothing, if the entry
      does not say in which zone it is. */
  function Shift(item: BusyItem, offset: int): int {
    if item.offset.Some? then offset - item.offset.value else 0
  }

  /** No schedule entry has a time in common with these minutes of the owner's clock. */
  ghost predicate Unoccupied(memories: seq<Memory>, offset: int, from: int, until: int) {
    forall i, j :: 0 <= i < |memories| && memories[i].isSchedule && 0 <= j < |memories[i].busy| ==>
      var item := memories[i].busy[j];
      until <= item.start + Shift(item, offset) || item.end + Shift(item, offset) <= from
  }

  /** A time is free in a calendar exactly when no entry occupies it on the owner's clock. */
  lemma FreeOnClock(m: Meeting, side: Side, day: int, time: int)
    ensures var p := m.Party(side);
            m.Search(side).Free(OnWall(day, time, m.duration, p.offset)) <==>
              Unoccupied(p.memories, p.offset, 1440 * day + time, 1440 * day + time + m.duration)
  {
    var p, s := m.Party(side), m.Search(side);
    var slot := OnWall(day, time, m.duration, p.offset);
    var from, until := 1440 * day + time, 1440 * day + time + m.duration;
    hide BusyOf;
    if Unoccupied(p.memories, p.offset, from, until) {
      forall i | 0 <= i < |s.busy| ensures !Overlaps(slot, s.busy[i]) {
        BusyIsExact(p.memories, p.offset, s.busy[i]);
        var k: nat, j: nat :| Mentions(p.memories, k, j, s.busy[i], p.offset);
        assert p.memories[k].busy[j] == p.memories[k].busy[j];
      }
    }
    if s.Free(slot) {
      forall i, j | 0 <= i < |p.memories| && p.memories[i].isSchedule && 0 <= j < |p.memories[i].busy|
        ensures var item := p.memories[i].busy[j];
                until <= item.start + Shift(item, p.offset) || item.end + Shift(item, p.offset) <= from
      {
        var item := p.memories[i].busy[j];
        var o := if item.offset.Some? then item.offset.value else p.offset;
        var x := Slot(item.start - o, item.end - o, o);
        assert Mentions(p.memories, i, j, x, p.offset);
        BusyIsExact(p.memories, p.offset, x);
        var k :| 0 <= k < |s.busy| && s.busy[k] == x;
        assert !Overlaps(slot, s.busy[k]);
      }
    }
  }

  /** An entry without an offset blocks exactly the times that meet it on the owner's own clock. */
  lemma LocalEntryBlocks(m: Meeting, side: Side, start: int, end: int, disclosed: bool, day: int, time: int)
    requires m.Party(side).memories == [Memory(true, [BusyItem(start, end, None)], disclosed)]
    ensures m.Search(side).Free(OnWall(day, time, m.duration, m.Party(side).offset)) <==>
              1440 * day + time + m.duration <= start || end <= 1440 * day + time
  {
    var memories := m.Party(side).memories;
    FreeOnClock(m, side, day, time);
    assert memories[0].busy[0] == BusyItem(start, end, None);
    hide BusyOf;
  }

  /** The `k`th half-hour of a requested range on a requested date, if it ends inside the range and
      nothing occupies it. */
  ghost predicate HalfHourStep(m: Meeting, p: Party, slot: Slot, day: int, i: nat, k: nat) {
    && m.first <= day <= m.last && i < |m.ranges|
    && var time := m.ranges[i].start + 30 * k;
       && time + m.duration <= m.ranges[i].end
       && slot == OnWall(day, time, m.duration, p.offset)
       && Unoccupied(p.memories, p.offset, 1440 * day + time, 1440 * day + time + m.duration)
  }

  lemma StepIsOffer(m: Meeting, side: Side, slot: Slot, day: int, i: nat, k: nat)
    ensures m.Search(side).Offers(slot, day, i, k) <==> HalfHourStep(m, m.Party(side), slot, day, i, k)
  {
    hide BusyOf, Unoccupied, Search.Free;
    if i < |m.ranges| {
      FreeOnClock(m, side, day, m.ranges[i].start + 30 * k);
    }
  }

  /** The candidates, before they are cut to 20. */
  lemma OfferedOnClock(m: Meeting, side: Side, slot: Slot)
    ensures slot in AllSlots(m.Search(side)) <==>
              exists day, i: nat, k: nat :: HalfHourStep(m, m.Party(side), slot, day, i, k)
  {
    hide BusyOf, HalfHourStep, Search.Offers;
    EnumerationIsExact(m.Search(side), slot);
    forall day, i: nat, k: nat
      ensures m.Search(side).Offers(slot, day, i, k) <==> HalfHourStep(m, m.Party(side), slot, day, i, k)
    {
      StepIsOffer(m, side, slot, day, i, k);
    }
  }

  /** Of these the first 20 are candidates, and the first five of them are offered. */
  lemma FirstOfThem(m: Meeting, side: Side)
    ensures var all := AllSlots(m.Search(side));
            && m.Slots(side) == (if |all| <= 20 then all else all[..20])
            && m.Offer(side) == (if |all| <= 5 then all else all[..5])
  {
    hide AllSlots;
  }

  // The owner's rules

  ghost predicate Covers(ranges: seq<TimeRange>, time: int) {
    exists r :: r in ranges && r.start <= time < r.end
  }

  ghost predicate AnyRange(ranges: seq<TimeRange>) {
    exists r :: r in ranges && r.start < r.end
  }

  /** The first reason to ask the owner, if there is one, about a slot at this time of the owner's day;
      `None` stands for no slot. */
  ghost function FirstReason(o: Owner, time: Option<int>): Option<Reason> {
    if !o.delegated then Some(NotDelegated)
    else if o.confidence < 0.6 then Some(ConfidenceBelowThreshold)
    else if FirstPreference(o, time).Some? then FirstPreference(o, time)
    else if o.allowsPeer == Some(false) then Some(RelationshipRequiresApproval)
    else None
  }

  lemma RangesOnClock(ranges: seq<TimeRange>, time: int)
    ensures InRanges(time, ValidRanges(ranges)) <==> Covers(ranges, time)
    ensures ValidRanges(ranges) != [] <==> AnyRange(ranges)
  {
    ValidRangesAreExact(ranges);
    var valid := ValidRanges(ranges);
    if valid != [] {
      assert valid[0] in valid;
    }
    if Covers(ranges, time) {
      var r :| r in ranges && r.start <= time < r.end;
      assert r in valid;
    }
  }

  /** The reasons that come from stated preferences, at this time of the owner's day. */
  ghost function FirstPreference(o: Owner, time: Option<int>): Option<Reason> {
    if o.autoAccept == Some(false) then Some(AutoAcceptDisabled)
    else if AnyRange(o.preferred) && (time.None? || !Covers(o.preferred, time.value)) then Some(OutsidePreferredTime)
    else if time.Some? && Covers(o.avoided, time.value) then Some(TimeAvoided)
    else None
  }

  predicate Leads(s: seq<Reason>, first: Option<Reason>) {
    if first.Some? then s != [] && s[0] == first.value else s == []
  }

  predicate AtTime(selected: Option<Slot>, offset: int, time: Option<int>) {
    (selected.Some? <==> time.Some?) && (selected.Some? ==> LocalTime(selected.value, offset) == time.value)
  }

  lemma PreferencesLead(o: Owner, selected: Option<Slot>, offset: int, time: Option<int>)
    requires AtTime(selected, offset, time)
    ensures Leads(PreferenceReasons(o, selected, offset), FirstPreference(o, time))
  {
    RangesOnClock(o.preferred, if time.Some? then time.value else 0);
    RangesOnClock(o.avoided, if time.Some? then time.value else 0);
    hide LocalTime, ValidRanges, InRanges, Covers, AnyRange;
  }

  lemma ReasonsLead(o: Owner, selected: Option<Slot>, offset: int, time: Option<int>)
    requires AtTime(selected, offset, time)
    ensures Leads(Reasons(o, selected, offset), FirstReason(o, time))
  {
    hide PreferenceReasons, AtTime, Covers, AnyRange;
    PreferencesLead(o, selected, offset, time);
  }

  /** A slot is judged by the time of the owner's own day at which it starts. */
  lemma JudgedOnClock(o: Owner, day: int, time: int, minutes: int, offset: int)
    requires 0 <= time < 1440
    ensures var reason := FirstReason(o, Some(time));
            Evaluate(o, Some(OnWall(day, time, minutes, offset)), offset) ==
              if reason.Some? then AskFor(reason.value) else AcceptIt
  {
    LocalTimeIs(day, time, minutes, offset);
    hide LocalTime, Reasons, FirstReason, OnWall;
    ReasonsLead(o, Some(OnWall(day, time, minutes, offset)), offset, Some(time));
  }

  lemma LocalTimeIs(day: int, time: int, minutes: int, offset: int)
    requires 0 <= time < 1440
    ensures LocalTime(OnWall(day, time, minutes, offset), offset) == time
  {
    assert OnWall(day, time, minutes, offset).start + offset == 1440 * day + time;
  }

  /** Without a slot the same reasons count, except the times that are avoided. */
  lemma JudgedWithoutSlot(o: Owner, offset: int)
    ensures var reason := FirstReason(o, None);
            Evaluate(o, None, offset) == if reason.Some? then AskFor(reason.value) else NothingCommon
  {
    hide LocalTime, Reasons, FirstReason;
    ReasonsLead(o, None, offset, None);
  }
}
