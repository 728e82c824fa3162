/** What a policy for the peer must disclose of an owner's calendar so that no remote negotiation
    books over the rest. */
module Disclosure {
  import opened Types
  import opened Scheduling
  import opened MeetingSchedule
  import opened MeetingScheduleLimits
  import opened ProtocolState
  import RemoteNegotiation
  import TwoNodes
  import LossFreeRelay
  import opened RemoteMeeting
  import opened MeetingTerms

  const MAX_MINUTES := 480

  /** What the domain lets a request ask for: up to 480 minutes, in ranges on the clock. */
  predicate Valid(m: Meeting) {
    && 1 <= m.duration <= MAX_MINUTES && m.ranges != []
    && forall i :: 0 <= i < |m.ranges| ==> 0 <= m.ranges[i].start < m.ranges[i].end < DAY
  }

  predicate OnClock(from: int, until: int) {
    0 <= from < until < DAY && until - from <= MAX_MINUTES
  }

  function Window(day: int, from: int, until: int, offset: int): Slot {
    Slot(day * DAY + from - offset, day * DAY + until - offset, offset)
  }

  predicate FreeBy(memories: seq<Memory>, offset: int, slot: Slot) {
    forall x :: x in BusyOf(memories, offset) ==> !Overlaps(slot, x)
  }

  /** What the policy hides is busy by what it discloses, wherever a request can ask. */
  ghost predicate HidesNothing(memories: seq<Memory>, offset: int) {
    forall day, from, until :: OnClock(from, until) ==>
      var slot := Window(day, from, until, offset);
      FreeBy(DisclosedBy(memories), offset, slot) ==> FreeBy(memories, offset, slot)
  }

  lemma {:induction false} DisclosedIsPart(memories: seq<Memory>)
    ensures forall x :: x in DisclosedBy(memories) ==> x in memories
  {
    if memories != [] {
      DisclosedIsPart(memories[1..]);
    }
  }

  lemma BusyIsDisclosed(memories: seq<Memory>, part: seq<Memory>, offset: int, x: Slot)
    requires forall y :: y in part ==> y in memories
    requires x in BusyOf(part, offset)
    ensures x in BusyOf(memories, offset)
  {
    BusyIsExact(part, offset, x);
    BusyIsExact(memories, offset, x);
    var i: nat, j: nat :| Mentions(part, i, j, x, offset);
    assert part[i] in memories;
    var k: nat :| k < |memories| && memories[k] == part[i];
    assert Mentions(memories, k, j, x, offset);
  }

  lemma FreeIsFreeOfDisclosed(memories: seq<Memory>, offset: int, slot: Slot)
    requires FreeBy(memories, offset, slot)
    ensures FreeBy(DisclosedBy(memories), offset, slot)
  {
    DisclosedIsPart(memories);
    hide DisclosedBy, BusyOf;
    forall x | x in BusyOf(DisclosedBy(memories), offset) ensures !Overlaps(slot, x) {
      BusyIsDisclosed(memories, DisclosedBy(memories), offset, x);
    }
  }

  /** The searches of both forms. */
  lemma SearchIsFree(m: Meeting, side: Side, slot: Slot)
    ensures m.Search(side).Free(slot) <==> FreeBy(m.Party(side).memories, m.Party(side).offset, slot)
    ensures Disclosed(m).Search(side).Free(slot)
       <==> FreeBy(DisclosedBy(m.Party(side).memories), m.Party(side).offset, slot)
  {
    hide BusyOf, DisclosedBy;
  }

  // The candidates are the same

  ghost predicate SameFree(s: Search, t: Search) {
    && t == s.(busy := t.busy)
    && forall day, from :: 0 <= from && from + s.duration < DAY ==>
         (s.Free(s.SlotAt(s.Instant(day, from))) <==> t.Free(s.SlotAt(s.Instant(day, from))))
  }

  lemma {:induction false} SameFromCursor(s: Search, t: Search, day: int, from: int, until: int)
    requires SameFree(s, t) && 0 <= from && until < DAY
    ensures FromCursor(s, s.Instant(day, from), s.Instant(day, until))
         == FromCursor(t, s.Instant(day, from), s.Instant(day, until))
    decreases until - s.duration - from
  {
    if from + s.duration <= until {
      SameFromCursor(s, t, day, from + STEP_MINUTES, until);
      assert s.Instant(day, from + STEP_MINUTES) == s.Instant(day, from) + STEP_MINUTES;
      assert t.SlotAt(s.Instant(day, from)) == s.SlotAt(s.Instant(day, from));
    }
  }

  lemma {:induction false} SameFromRange(s: Search, t: Search, day: int, i: nat)
    requires SameFree(s, t) && i <= |s.ranges|
    requires forall k :: 0 <= k < |s.ranges| ==> 0 <= s.ranges[k].start < s.ranges[k].end < DAY
    ensures FromRange(s, day, i) == FromRange(t, day, i)
    decreases |s.ranges| - i
  {
    if i < |s.ranges| {
      SameFromCursor(s, t, day, s.ranges[i].start, s.ranges[i].end);
      SameFromRange(s, t, day, i + 1);
    }
  }

  lemma {:induction false} SameFromDay(s: Search, t: Search, day: int)
    requires SameFree(s, t)
    requires forall k :: 0 <= k < |s.ranges| ==> 0 <= s.ranges[k].start < s.ranges[k].end < DAY
    ensures FromDay(s, day) == FromDay(t, day)
    decreases s.last - day
  {
    if day <= s.last {
      SameFromRange(s, t, day, 0);
      SameFromDay(s, t, day + 1);
    }
  }

  lemma SlotsAreTheSame(m: Meeting, side: Side)
    requires Valid(m) && HidesNothing(m.Party(side).memories, m.Party(side).offset)
    ensures Disclosed(m).Slots(side) == m.Slots(side)
  {
    var s, t := m.Search(side), Disclosed(m).Search(side);
    var p := m.Party(side);
    hide BusyOf, DisclosedBy, Scheduling.Search.Free, FreeBy;
    forall day, from | 0 <= from && from + s.duration < DAY
      ensures s.Free(s.SlotAt(s.Instant(day, from))) <==> t.Free(s.SlotAt(s.Instant(day, from)))
    {
      var slot := s.SlotAt(s.Instant(day, from));
      assert slot == Window(day, from, from + m.duration, p.offset) && OnClock(from, from + m.duration);
      SearchIsFree(m, side, slot);
      if FreeBy(p.memories, p.offset, slot) {
        FreeIsFreeOfDisclosed(p.memories, p.offset, slot);
      }
    }
    SameFromDay(s, t, m.first);
  }

  // Both forms under a policy that hides nothing

  /** Two meetings that differ in memories alone, and in none that counts. */
  ghost predicate SameMeeting(m: Meeting, d: Meeting) {
    d.duration == m.duration && forall side: Side ::
      d.Slots(side) == m.Slots(side) && d.Party(side).owner == m.Party(side).owner
      && d.Party(side).offset == m.Party(side).offset && d.Party(side).shares == m.Party(side).shares
  }

  lemma {:induction false} SameRounds(m: Meeting, d: Meeting, limit: nat, offers: seq<seq<Slot>>)
    requires SameMeeting(m, d) && offers != []
    ensures Rounds(m, limit, offers) == Rounds(d, limit, offers)
    decreases limit - |offers|
  {
    hide Candidates, Intersect, Evaluate;
    if |offers| < limit {
      SameRounds(m, d, limit, offers + [m.Offer(Turn(|offers|))]);
    }
  }

  lemma {:induction false} SameLog(m: Meeting, d: Meeting, offers: seq<seq<Slot>>)
    requires d.duration == m.duration
    ensures LogOf(m, offers) == LogOf(d, offers)
  {
    if offers != [] {
      SameLog(m, d, offers[..|offers| - 1]);
    }
  }

  lemma SameFinal(m: Meeting, d: Meeting, r: Run, side: Side)
    requires SameMeeting(m, d) && !r.ending.LeftOpen?
    ensures FinalSession(m, r, side) == FinalSession(d, r, side)
  {
    SameLog(m, d, r.offers);
    hide Candidates, LogOf;
    assert d.Offer(side) == m.Offer(side);
  }

  lemma SameMirrors(sys: TwoNodes.System, m: Meeting, d: Meeting, r: Run)
    requires SameMeeting(m, d)
    ensures Mirrors(sys, m, r) <==> Mirrors(sys, d, r)
  {
    hide FinalSession, SameMeeting;
    if !r.ending.LeftOpen? {
      SameFinal(m, d, r, Initiator);
      SameFinal(m, d, r, Responder);
    }
  }

  lemma SameArrange(m: Meeting, d: Meeting, limit: nat)
    requires SameMeeting(m, d)
    ensures Arrange(m, limit) == Arrange(d, limit)
  {
    hide Candidates, Rounds;
    assert d.Offer(Initiator) == m.Offer(Initiator);
    SameRounds(m, d, limit, [m.Offer(Initiator)]);
  }

  lemma SameConditions(m: Meeting, d: Meeting)
    requires SameMeeting(m, d)
    ensures Conforms(d) <==> Conforms(m)
  {
    hide Candidates, Meet, Reasons;
    forall side: Side
      ensures Common(d, side) <==> Common(m, side)
      ensures Unreserved(d, side) <==> Unreserved(m, side)
    {
      assert d.Offer(side.Other()) == m.Offer(side.Other()) && d.Slots(side) == m.Slots(side);
      assert d.Party(side).owner == m.Party(side).owner;
    }
    hide Common, Unreserved;
    assert d.Party(Initiator).owner == m.Party(Initiator).owner
             && d.Party(Initiator).shares == m.Party(Initiator).shares;
    assert d.Party(Responder).shares == m.Party(Responder).shares;
  }

  ghost predicate SafePolicies(m: Meeting) {
    forall side: Side :: HidesNothing(m.Party(side).memories, m.Party(side).offset)
  }

  lemma DisclosedIsSame(m: Meeting)
    requires Valid(m) && SafePolicies(m)
    ensures SameMeeting(m, Disclosed(m))
  {
    hide HidesNothing, Candidates, DisclosedBy;
    forall side: Side ensures Disclosed(m).Slots(side) == m.Slots(side) {
      SlotsAreTheSame(m, side);
    }
  }

  /** Under policies that hide nothing, the two forms come to the same exactly when they do so with
      everything disclosed. */
  lemma FormsAgreeUnderPolicies(m: Meeting, refusal: RemoteNegotiation.Handling, n: nat)
    requires n >= MAX_COUNTER_ROUNDS + 2 && !refusal.Normally? && Valid(m) && SafePolicies(m)
    ensures Mirrors(LossFree(m, refusal, n), m, Arrange(m, MAX_COUNTER_ROUNDS)) <==>
              && m.initiator.owner.delegated && m.initiator.shares && m.responder.shares
              && (Common(m, Responder)
                  || (Unreserved(m, Responder) && (Common(m, Initiator) || Unreserved(m, Initiator))))
  {
    var d := Disclosed(m);
    hide Mirrors, Exchange, Arrange, Common, Unreserved, Disclosed, SameMeeting, SafePolicies;
    DisclosedIsSame(m);
    ExchangeEnds(d, refusal, n);
    SameArrange(m, d, MAX_COUNTER_ROUNDS);
    SameMirrors(LossFree(m, refusal, n), m, d, Arrange(m, MAX_COUNTER_ROUNDS));
    SameConditions(m, d);
  }

  // Nothing less will do

  /** A meeting for which one window is asked. */
  function Alone(day: int, from: int, until: int, initiator: Party, responder: Party): Meeting {
    Meeting(day, day, [TimeRange(from, until)], until - from, initiator, responder)
  }

  lemma OneWindow(m: Meeting, side: Side, day: int, from: int, until: int)
    requires m == Alone(day, from, until, m.initiator, m.responder) && OnClock(from, until)
    ensures var slot := Window(day, from, until, m.Party(side).offset);
            m.Slots(side) == if m.Search(side).Free(slot) then [slot] else []
  {
    var s := m.Search(side);
    var start, end := s.Instant(day, from), s.Instant(day, until);
    hide BusyOf, Scheduling.Search.Free;
    assert s.SlotAt(start) == Window(day, from, until, s.offset);
    assert FromCursor(s, start + STEP_MINUTES, end) == [];
    assert FromRange(s, day, 1) == [] && FromDay(s, day + 1) == [];
    assert AllSlots(s) == FromCursor(s, start, end);
  }

  /** One side with these memories, a peer with an empty calendar, and two willing owners. */
  function Revealing(side: Side, memories: seq<Memory>, offset: int, day: int, from: int, until: int): Meeting {
    var own := MeetingSchedule.Party(WILLING, memories, offset, true);
    var peer := MeetingSchedule.Party(WILLING, [], offset, true);
    if side.Initiator? then Alone(day, from, until, own, peer) else Alone(day, from, until, peer, own)
  }

  lemma NothingIsBusy(offset: int, slot: Slot)
    ensures DisclosedBy([]) == [] && FreeBy([], offset, slot)
  {
  }

  lemma RevealedSlots(side: Side, memories: seq<Memory>, offset: int, day: int, from: int, until: int)
    requires OnClock(from, until)
    requires FreeBy(DisclosedBy(memories), offset, Window(day, from, until, offset))
    requires !FreeBy(memories, offset, Window(day, from, until, offset))
    ensures var m := Revealing(side, memories, offset, day, from, until);
            && m.Slots(side) == [] && m.Slots(side.Other()) == [Window(day, from, until, offset)]
            && Disclosed(m).Slots(Initiator) == Disclosed(m).Slots(Responder) == [Window(day, from, until, offset)]
            && !m.Search(side).Free(Window(day, from, until, offset))
  {
    hide Candidates, Scheduling.Search.Free, FreeBy, DisclosedBy, BusyOf;
    NothingIsBusy(offset, Window(day, from, until, offset));
    RevealedSide(side, memories, offset, day, from, until, side);
    RevealedSide(side, memories, offset, day, from, until, side.Other());
  }

  lemma RevealedSide(side: Side, memories: seq<Memory>, offset: int, day: int, from: int, until: int, x: Side)
    requires OnClock(from, until)
    ensures var m := Revealing(side, memories, offset, day, from, until);
            var slot := Window(day, from, until, offset);
            var known := if x == side then memories else [];
            && (m.Search(x).Free(slot) <==> FreeBy(known, offset, slot))
            && m.Slots(x) == (if FreeBy(known, offset, slot) then [slot] else [])
            && Disclosed(m).Slots(x) == (if FreeBy(DisclosedBy(known), offset, slot) then [slot] else [])
  {
    var m := Revealing(side, memories, offset, day, from, until);
    hide Candidates, Scheduling.Search.Free, FreeBy, DisclosedBy, BusyOf;
    SearchIsFree(m, x, Window(day, from, until, offset));
    OneWindow(m, x, day, from, until);
    OneWindow(Disclosed(m), x, day, from, until);
  }

  lemma RevealingIsWilling(side: Side, memories: seq<Memory>, offset: int, day: int, from: int, until: int)
    requires OnClock(from, until)
    ensures var m := Revealing(side, memories, offset, day, from, until);
            && Valid(m) && Keeps(m, side, memories, offset)
            && HidesNothing(m.Party(side.Other()).memories, m.Party(side.Other()).offset)
            && (forall x: Side :: m.Party(x).owner == WILLING && m.Party(x).shares)
            && (forall x: Side :: Disclosed(m).Party(x).owner == WILLING && Disclosed(m).Party(x).shares)
  {
    assert HidesNothing([], offset);
    hide DisclosedBy, HidesNothing;
  }

  lemma BookedRemotely(d: Meeting, slot: Slot, refusal: RemoteNegotiation.Handling, n: nat)
    requires n >= MAX_COUNTER_ROUNDS + 2 && !refusal.Normally?
    requires d.Slots(Initiator) == d.Slots(Responder) == [slot]
    requires forall side: Side :: d.Party(side).owner == WILLING && d.Party(side).shares
    ensures var after := Exchange(d, refusal, n);
            && after.initiator.Some? && after.responder.Some?
            && after.initiator.value.agreement == Some(RemoteNegotiation.MeetingAgreement(Some(slot)))
            && after.responder.value.agreement == Some(RemoteNegotiation.MeetingAgreement(Some(slot)))
  {
    hide Candidates;
    assert d.Party(Initiator).owner == d.Party(Responder).owner == WILLING;
    assert d.Party(Initiator).shares && d.Party(Responder).shares;
    var slots := [slot];
    assert SameSlot(slots[0], slots[0]) && Has(slots, slots[0]) && slots[1..] == [];
    assert d.Offer(Initiator) == slots && Intersect(slots, slots) == slots;
    IntersectMeets(slots, slots);
    hide Intersect, Has, Meet;
    assert Common(d, Responder);
    assert Arrange(d, MAX_COUNTER_ROUNDS).ending == Settled(Responder, slot);
    hide Arrange, LogOf, Exchange, Common, Unreserved;
    ExchangeEnds(d, refusal, n);
  }

  /** What a policy hides beyond what it discloses gets booked. */
  lemma HiddenSlotIsBooked(
    side: Side, memories: seq<Memory>, offset: int, day: int, from: int, until: int,
    refusal: RemoteNegotiation.Handling, n: nat
  )
    requires n >= MAX_COUNTER_ROUNDS + 2 && !refusal.Normally? && OnClock(from, until)
    requires FreeBy(DisclosedBy(memories), offset, Window(day, from, until, offset))
    requires !FreeBy(memories, offset, Window(day, from, until, offset))
    ensures var m := Revealing(side, memories, offset, day, from, until);
            var slot := Window(day, from, until, offset);
            var after := LossFree(m, refusal, n);
            && Valid(m) && !m.Search(side).Free(slot)
            && after.initiator.Some? && after.responder.Some?
            && after.initiator.value.agreement == Some(RemoteNegotiation.MeetingAgreement(Some(slot)))
            && after.responder.value.agreement == Some(RemoteNegotiation.MeetingAgreement(Some(slot)))
  {
    var m := Revealing(side, memories, offset, day, from, until);
    hide Revealing, Disclosed, Window, OnClock, Candidates, Exchange, DisclosedBy, Scheduling.Search.Free, FreeBy,
           Valid;
    RevealedSlots(side, memories, offset, day, from, until);
    RevealingIsWilling(side, memories, offset, day, from, until);
    BookedRemotely(Disclosed(m), Window(day, from, until, offset), refusal, n);
  }

  // The exact conditions

  /** No node has agreed on a slot at which this side's owner is busy. */
  ghost predicate RespectsCalendar(m: Meeting, side: Side, sys: TwoNodes.System) {
    forall node: Side :: sys.Node(node).Some? && sys.Node(node).value.agreement.Some? ==>
      var agreement := sys.Node(node).value.agreement.value;
      agreement.MeetingAgreement? && agreement.slot.Some? && m.Search(side).Free(agreement.slot.value)
  }

  /** What the nodes find free and allowed is free. */
  lemma FitsIsFree(m: Meeting, side: Side, slot: Slot)
    requires Valid(m) && HidesNothing(m.Party(side).memories, m.Party(side).offset)
    requires Disclosed(m).Search(side).Free(slot) && Disclosed(m).Search(side).Allows(slot)
    ensures m.Search(side).Free(slot)
  {
    var s, p := Disclosed(m).Search(side), m.Party(side);
    var day, i :| s.first <= day <= s.last && 0 <= i < |s.ranges|
                  && s.Instant(day, s.ranges[i].start) <= slot.start
                  && slot.start + s.duration == slot.end <= s.Instant(day, s.ranges[i].end);
    var from := slot.start + p.offset - day * DAY;
    var window := Window(day, from, from + m.duration, p.offset);
    assert OnClock(from, from + m.duration) && SameSlot(window, slot);
    SearchIsFree(m, side, slot);
    hide BusyOf, DisclosedBy, Scheduling.Search.Free;
    assert FreeBy(DisclosedBy(p.memories), p.offset, window);
    assert FreeBy(p.memories, p.offset, window);
  }

  lemma CalendarRespected(m: Meeting, side: Side, steps: seq<TwoNodes.Step>)
    requires Valid(m) && HidesNothing(m.Party(side).memories, m.Party(side).offset)
    requires GuidedRun(Disclosed(m), steps)
    ensures RespectsCalendar(m, side, TwoNodes.Execute(steps))
  {
    hide Valid, HidesNothing, GuidedRun, Disclosed, Scheduling.Search.Free, Scheduling.Search.Allows, TwoNodes.Execute;
    var sys := TwoNodes.Execute(steps);
    forall node: Side | sys.Node(node).Some? && sys.Node(node).value.agreement.Some?
      ensures var agreement := sys.Node(node).value.agreement.value;
              agreement.MeetingAgreement? && agreement.slot.Some? && m.Search(side).Free(agreement.slot.value)
    {
      AgreedSlotFits(Disclosed(m), steps, node);
      FitsIsFree(m, side, sys.Node(node).value.agreement.value.slot.value);
    }
  }

  /** The calendar is respected in every run of every valid meeting. */
  ghost predicate AlwaysRespected(side: Side, memories: seq<Memory>, offset: int) {
    forall m: Meeting, steps :: Valid(m) && Keeps(m, side, memories, offset) && GuidedRun(Disclosed(m), steps) ==>
      RespectsCalendar(m, side, TwoNodes.Execute(steps))
  }

  predicate Keeps(m: Meeting, side: Side, memories: seq<Memory>, offset: int) {
    m.Party(side).memories == memories && m.Party(side).offset == offset
  }

  /** A policy keeps remote negotiations from booking over its owner's calendar, for all requests,
      peers, rules, decisions and Relays, if and only if it hides nothing that counts. */
  lemma PolicyIsExact(side: Side, memories: seq<Memory>, offset: int)
    ensures AlwaysRespected(side, memories, offset) <==> HidesNothing(memories, offset)
  {
    if HidesNothing(memories, offset) {
      hide HidesNothing, RespectsCalendar, GuidedRun, Valid, TwoNodes.Execute;
      forall m: Meeting, steps | Valid(m) && Keeps(m, side, memories, offset) && GuidedRun(Disclosed(m), steps)
        ensures RespectsCalendar(m, side, TwoNodes.Execute(steps))
      {
        CalendarRespected(m, side, steps);
      }
    } else {
      var day, from, until :| OnClock(from, until)
                              && FreeBy(DisclosedBy(memories), offset, Window(day, from, until, offset))
                              && !FreeBy(memories, offset, Window(day, from, until, offset));
      hide HidesNothing, OnClock, FreeBy, AlwaysRespected;
      HidingDisrespects(side, memories, offset, day, from, until);
    }
  }

  lemma HidingDisrespects(side: Side, memories: seq<Memory>, offset: int, day: int, from: int, until: int)
    requires OnClock(from, until)
    requires FreeBy(DisclosedBy(memories), offset, Window(day, from, until, offset))
    requires !FreeBy(memories, offset, Window(day, from, until, offset))
    ensures !AlwaysRespected(side, memories, offset)
  {
    hide Revealing, Disclosed, Window, OnClock, Exchange, DisclosedBy, Scheduling.Search.Free, FreeBy, Valid, GuidedRun,
         TwoNodes.Execute;
    var m := Revealing(side, memories, offset, day, from, until);
    var n := MAX_COUNTER_ROUNDS + 2;
    RevealingIsWilling(side, memories, offset, day, from, until);
    HiddenSlotIsBooked(side, memories, offset, day, from, until, RemoteNegotiation.Unanswered, n);
    ExchangeIsGuided(Disclosed(m), RemoteNegotiation.Unanswered, n);
    var steps :| GuidedRun(Disclosed(m), steps)
                 && TwoNodes.Execute(steps) == LossFree(m, RemoteNegotiation.Unanswered, n);
    assert !RespectsCalendar(m, side, TwoNodes.Execute(steps)) by {
      assert TwoNodes.Execute(steps).Node(Initiator).Some?;
    }
  }

  /** The two forms come to the same exactly when they do so with everything disclosed, in every
      valid meeting whose other side hides nothing. */
  ghost predicate FormsAgreeAsDisclosed(
    side: Side, memories: seq<Memory>, offset: int, refusal: RemoteNegotiation.Handling, n: nat
  ) {
    forall m: Meeting :: Valid(m) && Keeps(m, side, memories, offset)
                         && HidesNothing(m.Party(side.Other()).memories, m.Party(side.Other()).offset) ==>
      (Mirrors(LossFree(m, refusal, n), m, Arrange(m, MAX_COUNTER_ROUNDS)) <==> Conforms(m))
  }

  lemma FormsNeedPolicy(
    side: Side, memories: seq<Memory>, offset: int, refusal: RemoteNegotiation.Handling, n: nat
  )
    requires n >= MAX_COUNTER_ROUNDS + 2 && !refusal.Normally?
    ensures FormsAgreeAsDisclosed(side, memories, offset, refusal, n) <==> HidesNothing(memories, offset)
  {
    if HidesNothing(memories, offset) {
      hide HidesNothing, Valid, LossFree, Mirrors, Arrange, Common, Unreserved;
      forall m: Meeting | Valid(m) && Keeps(m, side, memories, offset)
                          && HidesNothing(m.Party(side.Other()).memories, m.Party(side.Other()).offset)
        ensures Mirrors(LossFree(m, refusal, n), m, Arrange(m, MAX_COUNTER_ROUNDS)) <==> Conforms(m)
      {
        forall x: Side ensures HidesNothing(m.Party(x).memories, m.Party(x).offset) {
          assert x == side || x == side.Other();
        }
        FormsAgreeUnderPolicies(m, refusal, n);
      }
    } else {
      var day, from, until :| OnClock(from, until)
                              && FreeBy(DisclosedBy(memories), offset, Window(day, from, until, offset))
                              && !FreeBy(memories, offset, Window(day, from, until, offset));
      hide HidesNothing, OnClock, FreeBy, FormsAgreeAsDisclosed;
      HidingDiffers(side, memories, offset, day, from, until, refusal, n);
    }
  }

  /** A side that has no slot meets nobody. */
  lemma NobodyMeets(m: Meeting, side: Side)
    requires m.Slots(side) == [] && forall x: Side :: m.Party(x).owner == WILLING && m.Party(x).shares
    ensures Conforms(m) && Arrange(m, MAX_COUNTER_ROUNDS).ending.NoCommonSlot?
  {
    hide Candidates;
    assert m.Offer(side) == [];
    assert m.Party(Initiator).owner == m.Party(Responder).owner == WILLING;
    assert m.Party(Initiator).shares && m.Party(Responder).shares;
    assert Apart(m);
    MeetingOutcome(m, MAX_COUNTER_ROUNDS);
    hide Arrange;
  }

  lemma HidingDiffers(
    side: Side, memories: seq<Memory>, offset: int, day: int, from: int, until: int,
    refusal: RemoteNegotiation.Handling, n: nat
  )
    requires n >= MAX_COUNTER_ROUNDS + 2 && !refusal.Normally? && OnClock(from, until)
    requires FreeBy(DisclosedBy(memories), offset, Window(day, from, until, offset))
    requires !FreeBy(memories, offset, Window(day, from, until, offset))
    ensures !FormsAgreeAsDisclosed(side, memories, offset, refusal, n)
  {
    hide Revealing, Disclosed, Window, OnClock, LossFree, DisclosedBy, Scheduling.Search.Free, FreeBy, Valid,
           Candidates,
         HidesNothing, Conforms, Arrange, LogOf, Keeps;
    var m := Revealing(side, memories, offset, day, from, until);
    RevealingIsWilling(side, memories, offset, day, from, until);
    RevealedSlots(side, memories, offset, day, from, until);
    NobodyMeets(m, side);
    HiddenSlotIsBooked(side, memories, offset, day, from, until, refusal, n);
    AgreementIsNoFailure(LossFree(m, refusal, n), m, Arrange(m, MAX_COUNTER_ROUNDS));
  }

  lemma AgreementIsNoFailure(sys: TwoNodes.System, m: Meeting, r: Run)
    requires r.ending.NoCommonSlot? && sys.initiator.Some? && sys.initiator.value.agreement.Some?
    ensures !Mirrors(sys, m, r)
  {
    hide LogOf;
  }

  function MinuteAt(day: int, minute: int, offset: int): Slot {
    Window(day, minute, minute + 1, offset)
  }

  /** When no busy entry is empty, the condition can be checked minute by minute: what is busy is
      busy by what is disclosed, in all but the last minute of a day, in which no request can ask. */
  lemma MinutesDecide(memories: seq<Memory>, offset: int)
    requires forall x :: x in BusyOf(memories, offset) ==> x.start < x.end
    ensures HidesNothing(memories, offset) <==>
              forall day, minute :: 0 <= minute < DAY - 1 ==>
                var slot := MinuteAt(day, minute, offset);
                FreeBy(DisclosedBy(memories), offset, slot) ==> FreeBy(memories, offset, slot)
  {
    hide BusyOf, DisclosedBy;
    if HidesNothing(memories, offset) {
      forall day, minute | 0 <= minute < DAY - 1
        ensures var slot := MinuteAt(day, minute, offset);
                FreeBy(DisclosedBy(memories), offset, slot) ==> FreeBy(memories, offset, slot)
      {
        assert OnClock(minute, minute + 1);
      }
    } else {
      var day, from, until :| OnClock(from, until)
                              && FreeBy(DisclosedBy(memories), offset, Window(day, from, until, offset))
                              && !FreeBy(memories, offset, Window(day, from, until, offset));
      var slot := Window(day, from, until, offset);
      var x :| x in BusyOf(memories, offset) && Overlaps(slot, x);
      var t := if slot.start <= x.start then x.start else slot.start;
      var minute := t + offset - day * DAY;
      assert MinuteAt(day, minute, offset) == Slot(t, t + 1, offset);
      assert Overlaps(MinuteAt(day, minute, offset), x);
      assert FreeBy(DisclosedBy(memories), offset, MinuteAt(day, minute, offset));
    }
  }
}
