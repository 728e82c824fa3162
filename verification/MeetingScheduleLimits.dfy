/** Where `meeting.schedule` misses a common slot. */
module MeetingScheduleLimits {
  import opened Types
  import opened Scheduling
  import opened MeetingSchedule

  const WILLING := Owner(true, 1.0, None, None, [], [])

  function BusyBetween(start: int, end: int): Party {
    MeetingSchedule.Party(WILLING, [Memory(true, [BusyItem(start, end, None)], true)], 0, true)
  }

  /** Half-hours from midnight to 5:30: the initiator is busy from 2:30 to 5:00, the responder
      until 2:30, and both are free at 5:00. */
  const NARROW := Meeting(0, 0, [TimeRange(0, 330)], 30, BusyBetween(150, 300), BusyBetween(0, 150))

  function HalfHour(start: int): Slot {
    Slot(start, start + 30, 0)
  }

  lemma BusyIs(start: int, end: int)
    ensures BusyOf([Memory(true, [BusyItem(start, end, None)], true)], 0) == [Slot(start, end, 0)]
  {
    var memories := [Memory(true, [BusyItem(start, end, None)], true)];
    assert memories[..0] == [] && BusyOf(memories[..0], 0) == [];
    assert Intervals(memories[0].busy, 0) == [Slot(start, end, 0)];
  }

  function HalfHours(starts: seq<int>): seq<Slot> {
    if starts == [] then [] else [HalfHour(starts[0])] + HalfHours(starts[1..])
  }

  /** The half-hours from a cursor on that do not touch the busy time. */
  lemma OneStep(s: Search, busy: Slot, cursor: int, later: seq<int>, starts: seq<int>)
    requires s.duration == 30 && s.offset == 0 && s.busy == [busy] && cursor <= 300
    requires FromCursor(s, cursor + 30, 330) == HalfHours(later)
    requires starts == if Overlaps(HalfHour(cursor), busy) then later else [cursor] + later
    ensures FromCursor(s, cursor, 330) == HalfHours(starts)
  {
    assert s.SlotAt(cursor) == HalfHour(cursor);
    assert s.Free(HalfHour(cursor)) <==> !Overlaps(HalfHour(cursor), s.busy[0]);
    assert ([cursor] + later)[1..] == later;
  }

  lemma OneRange(s: Search)
    requires s.first == s.last == 0 && s.ranges == [TimeRange(0, 330)] && s.offset == 0
    ensures AllSlots(s) == FromCursor(s, 0, 330)
  {
    assert FromRange(s, 0, 1) == [] && FromDay(s, 1) == [];
  }

  /** Where the initiator is busy late, and the responder early. */
  lemma BusyLate(s: Search, busy: Slot)
    requires s.duration == 30 && s.offset == 0 && s.busy == [busy] && busy == Slot(150, 300, 0)
    ensures FromCursor(s, 0, 330) == HalfHours([0, 30, 60, 90, 120, 300])
  {
    hide FromCursor, HalfHours;
    OnlyLast(s, busy);
    var from120 := [120] + [300];
    OneStep(s, busy, 120, [300], from120);
    var from90 := [90] + from120;
    OneStep(s, busy, 90, from120, from90);
    var from60 := [60] + from90;
    OneStep(s, busy, 60, from90, from60);
    var from30 := [30] + from60;
    OneStep(s, busy, 30, from60, from30);
    OneStep(s, busy, 0, from30, [0] + from30);
    assert [0] + from30 == [0, 30, 60, 90, 120, 300];
  }

  lemma OnlyLast(s: Search, busy: Slot)
    requires s.duration == 30 && s.offset == 0 && s.busy == [busy] && busy == Slot(150, 300, 0)
    ensures FromCursor(s, 150, 330) == HalfHours([300])
  {
    var none: seq<int> := [];
    assert FromCursor(s, 330, 330) == HalfHours(none);
    hide FromCursor, HalfHours;
    var from300 := [300] + none;
    OneStep(s, busy, 300, none, from300);
    OneStep(s, busy, 270, from300, from300);
    OneStep(s, busy, 240, from300, from300);
    OneStep(s, busy, 210, from300, from300);
    OneStep(s, busy, 180, from300, from300);
    OneStep(s, busy, 150, from300, from300);
  }

  lemma BusyEarly(s: Search, busy: Slot)
    requires s.duration == 30 && s.offset == 0 && s.busy == [busy] && busy == Slot(0, 150, 0)
    ensures FromCursor(s, 0, 330) == HalfHours([150, 180, 210, 240, 270, 300])
  {
    hide FromCursor, HalfHours;
    FreeLate(s, busy);
    NothingEarly(s, busy, [150, 180, 210, 240, 270, 300]);
  }

  lemma NothingEarly(s: Search, busy: Slot, later: seq<int>)
    requires s.duration == 30 && s.offset == 0 && s.busy == [busy] && busy == Slot(0, 150, 0)
    requires FromCursor(s, 150, 330) == HalfHours(later)
    ensures FromCursor(s, 0, 330) == HalfHours(later)
  {
    hide FromCursor, HalfHours;
    OneStep(s, busy, 120, later, later);
    OneStep(s, busy, 90, later, later);
    OneStep(s, busy, 60, later, later);
    OneStep(s, busy, 30, later, later);
    OneStep(s, busy, 0, later, later);
  }

  lemma FreeLate(s: Search, busy: Slot)
    requires s.duration == 30 && s.offset == 0 && s.busy == [busy] && busy == Slot(0, 150, 0)
    ensures FromCursor(s, 150, 330) == HalfHours([150, 180, 210, 240, 270, 300])
  {
    var none: seq<int> := [];
    assert FromCursor(s, 330, 330) == HalfHours(none);
    hide FromCursor, HalfHours;
    var from300 := [300] + none;
    OneStep(s, busy, 300, none, from300);
    var from270 := [270] + from300;
    OneStep(s, busy, 270, from300, from270);
    var from240 := [240] + from270;
    OneStep(s, busy, 240, from270, from240);
    var from210 := [210] + from240;
    OneStep(s, busy, 210, from240, from210);
    var from180 := [180] + from210;
    OneStep(s, busy, 180, from210, from180);
    var from150 := [150] + from180;
    OneStep(s, busy, 150, from180, from150);
    assert from150 == [150, 180, 210, 240, 270, 300];
  }

  lemma InitiatorSlots()
    ensures NARROW.Slots(Initiator) == HalfHours([0, 30, 60, 90, 120, 300])
  {
    hide BusyOf, AllSlots, FromCursor, HalfHours;
    BusyIs(150, 300);
    OneRange(NARROW.Search(Initiator));
    BusyLate(NARROW.Search(Initiator), Slot(150, 300, 0));
    FewAreAll([0, 30, 60, 90, 120, 300]);
  }

  lemma ResponderSlots()
    ensures NARROW.Slots(Responder) == HalfHours([150, 180, 210, 240, 270, 300])
  {
    hide BusyOf, AllSlots, FromCursor, HalfHours;
    BusyIs(0, 150);
    OneRange(NARROW.Search(Responder));
    BusyEarly(NARROW.Search(Responder), Slot(0, 150, 0));
    FewAreAll([150, 180, 210, 240, 270, 300]);
  }

  lemma FewAreAll(starts: seq<int>)
    requires |starts| <= MAX_SLOTS
    ensures Take(HalfHours(starts), MAX_SLOTS) == HalfHours(starts)
  {
    HalfHoursAt(starts);
  }

  lemma {:induction false} HalfHoursAt(starts: seq<int>)
    ensures |HalfHours(starts)| == |starts| && forall i :: 0 <= i < |starts| ==>
              HalfHours(starts)[i] == HalfHour(starts[i])
  {
    if starts != [] {
      HalfHoursAt(starts[1..]);
    }
  }

  lemma OnlyLastIsCommon(i: seq<Slot>, r: seq<Slot>)
    requires i == HalfHours([0, 30, 60, 90, 120, 300]) && r == HalfHours([150, 180, 210, 240, 270, 300])
    ensures Meet(r, i) && !Meet(r, Take(i, OFFER_SIZE)) && !Meet(i, Take(r, OFFER_SIZE))
  {
    HalfHoursAt([0, 30, 60, 90, 120, 300]);
    HalfHoursAt([150, 180, 210, 240, 270, 300]);
    hide HalfHours;
    assert SameSlot(r[5], i[5]);
    assert Has(i, r[5]);
    forall x, y | 0 <= x < 6 && 0 <= y < 6 && SameSlot(i[x], r[y]) ensures x == y == 5 {
    }
  }

  /** Offering only five candidates can miss a slot that suits both: for every round limit from 2
      on this negotiation fails although both are free at 5:00. */
  lemma CommonSlotMissed(limit: nat)
    requires limit >= 2
    ensures Arrange(NARROW, limit).ending.NoCommonSlot?
    ensures Meet(NARROW.Slots(Responder), NARROW.Slots(Initiator))
  {
    hide Candidates, Arrange, Meet, Take, BusyOf;
    InitiatorSlots();
    ResponderSlots();
    OnlyLastIsCommon(NARROW.Slots(Initiator), NARROW.Slots(Responder));
    MeetingOutcome(NARROW, limit);
  }
}
