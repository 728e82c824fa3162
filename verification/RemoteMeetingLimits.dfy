/** Two meetings that the remote form gets wrong, or does not get at all. */
module RemoteMeetingLimits {
  import opened Types
  import opened Scheduling
  import opened MeetingSchedule
  import opened MeetingScheduleLimits
  import opened ProtocolState
  import RemoteNegotiation
  import TwoNodes
  import opened RemoteMeeting

  /** A meeting for which there is one slot, at midnight. */
  function AtMidnight(initiator: Party, responder: Party): Meeting {
    Meeting(0, 0, [TimeRange(0, 30)], 30, initiator, responder)
  }

  function Idle(owner: Owner): Party {
    MeetingSchedule.Party(owner, [], 0, true)
  }

  lemma OneSlot(m: Meeting, side: Side)
    requires m == AtMidnight(m.initiator, m.responder) && m.Party(side).offset == 0
    ensures m.Slots(side) == if m.Search(side).Free(HalfHour(0)) then [HalfHour(0)] else []
  {
    var s := m.Search(side);
    hide BusyOf;
    assert FromCursor(s, 30, 30) == [];
    assert FromRange(s, 0, 1) == [] && FromDay(s, 1) == [];
    assert s.SlotAt(0) == HalfHour(0);
    assert AllSlots(s) == FromCursor(s, 0, 30);
  }

  /** An initiator whose owner has switched meetings off. */
  const UNDELEGATED := AtMidnight(Idle(WILLING.(delegated := false)), Idle(WILLING))

  lemma BothAtMidnight(m: Meeting)
    requires m == AtMidnight(m.initiator, m.responder) && m.initiator.offset == 0 && m.responder.offset == 0
    requires BusyOf(m.initiator.memories, 0) == [] && BusyOf(m.responder.memories, 0) == []
    ensures m.Slots(Initiator) == m.Slots(Responder) == [HalfHour(0)]
    ensures Intersect(m.Slots(Responder), m.Offer(Initiator)) == [HalfHour(0)] && Common(m, Responder)
  {
    OneSlot(m, Initiator);
    OneSlot(m, Responder);
    hide Candidates, BusyOf;
    var slots := [HalfHour(0)];
    assert SameSlot(slots[0], slots[0]) && Has(slots, slots[0]) && slots[1..] == [];
    assert m.Offer(Initiator) == slots;
    IntersectMeets(slots, slots);
  }

  lemma SettledAtMidnight(m: Meeting)
    requires m == AtMidnight(m.initiator, m.responder) && m.initiator.offset == 0 && m.responder.offset == 0
    requires BusyOf(m.initiator.memories, 0) == [] && BusyOf(m.responder.memories, 0) == []
    requires m.responder.owner == WILLING
    ensures Arrange(m, MAX_COUNTER_ROUNDS) == Run([m.Offer(Initiator)], Settled(Responder, HalfHour(0)))
  {
    BothAtMidnight(m);
    hide Candidates, Intersect, BusyOf;
  }

  /** The start gate makes a difference: the local driver settles in round 1, before the initiator's
      rules would be asked, where no remote negotiation may even start. */
  lemma UndelegatedStartDiffers(refusal: RemoteNegotiation.Handling, n: nat)
    requires n >= MAX_COUNTER_ROUNDS + 2 && !refusal.Normally?
    ensures Arrange(UNDELEGATED, MAX_COUNTER_ROUNDS).ending == Settled(Responder, HalfHour(0))
    ensures LossFree(UNDELEGATED, refusal, n) == TwoNodes.NOTHING
    ensures !Mirrors(LossFree(UNDELEGATED, refusal, n), UNDELEGATED, Arrange(UNDELEGATED, MAX_COUNTER_ROUNDS))
  {
    hide Candidates, Intersect, Mirrors, LossFree, Arrange;
    SettledAtMidnight(UNDELEGATED);
    NothingWithoutStart(UNDELEGATED, refusal, n);
    FormsAgreeWhenDisclosed(UNDELEGATED, refusal, n);
  }

  /** Two owners who are both busy at midnight, and whose policies disclose no memory. */
  const SECRETIVE := AtMidnight(Secretive(WILLING), Secretive(WILLING))

  function Secretive(owner: Owner): Party {
    MeetingSchedule.Party(owner, [Memory(true, [BusyItem(0, 30, None)], false)], 0, true)
  }

  /** A calendar that is not disclosed is not respected: the local driver finds that nobody is free,
      and the nodes agree on a slot at which both are busy. */
  lemma BusySlotAgreed(refusal: RemoteNegotiation.Handling, n: nat)
    requires n >= MAX_COUNTER_ROUNDS + 2 && !refusal.Normally?
    ensures Arrange(SECRETIVE, MAX_COUNTER_ROUNDS).ending.NoCommonSlot?
    ensures !SECRETIVE.Search(Initiator).Free(HalfHour(0)) && !SECRETIVE.Search(Responder).Free(HalfHour(0))
    ensures var after := LossFree(SECRETIVE, refusal, n);
            && after.initiator.Some? && after.initiator.value.status == Agreed
            && after.initiator.value.agreement == Some(RemoteNegotiation.MeetingAgreement(Some(HalfHour(0))))
            && after.responder.Some? && after.responder.value.agreement == after.initiator.value.agreement
  {
    NobodyIsFree();
    AgreedAllTheSame(refusal, n);
  }

  lemma NobodyIsFree()
    ensures Arrange(SECRETIVE, MAX_COUNTER_ROUNDS).ending.NoCommonSlot?
    ensures !SECRETIVE.Search(Initiator).Free(HalfHour(0)) && !SECRETIVE.Search(Responder).Free(HalfHour(0))
  {
    var m := SECRETIVE;
    var memories := [Memory(true, [BusyItem(0, 30, None)], false)];
    assert memories[..0] == [] && BusyOf(memories[..0], 0) == [];
    assert Intervals(memories[0].busy, 0) == [Slot(0, 30, 0)];
    forall side: Side ensures m.Search(side).busy == [Slot(0, 30, 0)] && !m.Search(side).Free(HalfHour(0)) {
      assert m.Search(side).busy[0] == Slot(0, 30, 0);
    }
    OneSlot(m, Initiator);
    OneSlot(m, Responder);
    MeetingOutcome(m, MAX_COUNTER_ROUNDS);
    hide Candidates, BusyOf, Arrange;
  }

  lemma AgreedAllTheSame(refusal: RemoteNegotiation.Handling, n: nat)
    requires n >= MAX_COUNTER_ROUNDS + 2 && !refusal.Normally?
    ensures var after := LossFree(SECRETIVE, refusal, n);
            && after.initiator.Some? && after.initiator.value.status == Agreed
            && after.initiator.value.agreement == Some(RemoteNegotiation.MeetingAgreement(Some(HalfHour(0))))
            && after.responder.Some? && after.responder.value.agreement == after.initiator.value.agreement
  {
    var d := Disclosed(SECRETIVE);
    assert DisclosedBy(SECRETIVE.initiator.memories) == [];
    NobodyIsBusy(d);
    hide Candidates, Intersect, Exchange, Arrange, LogOf;
    SettledAtMidnight(d);
    ExchangeEnds(d, refusal, n);
  }

  lemma NobodyIsBusy(m: Meeting)
    requires m == AtMidnight(Idle(WILLING), Idle(WILLING))
    ensures Conforms(m)
  {
    BothAtMidnight(m);
    hide Candidates, Intersect, Common;
  }

  /** Two owners who are both busy at midnight. */
  const BUSY := AtMidnight(BusyBetween(0, 30), BusyBetween(0, 30))

  lemma NobodyMeetsAtMidnight()
    ensures AllDisclosed(BUSY) && Apart(BUSY) && Conforms(BUSY)
  {
    BusyIs(0, 30);
    forall side: Side ensures BUSY.Slots(side) == [] {
      assert BUSY.Search(side).busy[0] == Slot(0, 30, 0);
      assert Overlaps(HalfHour(0), BUSY.Search(side).busy[0]);
      OneSlot(BUSY, side);
    }
    hide Candidates, BusyOf;
    assert BUSY.Offer(Initiator) == BUSY.Offer(Responder) == [];
  }

  /** The local round limits for which the forms agree wherever they can are the protocol's own and
      no other: a meeting that fails does so after as many rounds as the limit allows. */
  lemma LimitIsExact(limit: nat, refusal: RemoteNegotiation.Handling, n: nat)
    requires n >= MAX_COUNTER_ROUNDS + 2 && !refusal.Normally?
    ensures (forall m: Meeting :: AllDisclosed(m) && Conforms(m) ==>
               Mirrors(LossFree(m, refusal, n), m, Arrange(m, limit)))
        <==> limit == MAX_COUNTER_ROUNDS
  {
    hide Conforms, Mirrors, LossFree, Arrange, BUSY;
    if limit == MAX_COUNTER_ROUNDS {
      forall m: Meeting | AllDisclosed(m) && Conforms(m)
        ensures Mirrors(LossFree(m, refusal, n), m, Arrange(m, limit))
      {
        ConformingAgree(m, refusal, n);
      }
    } else {
      NobodyMeetsAtMidnight();
      ConformingAgree(BUSY, refusal, n);
      OtherLimitDiffers(LossFree(BUSY, refusal, n), BUSY, limit);
    }
  }

  lemma ConformingAgree(m: Meeting, refusal: RemoteNegotiation.Handling, n: nat)
    requires n >= MAX_COUNTER_ROUNDS + 2 && !refusal.Normally? && AllDisclosed(m) && Conforms(m)
    ensures Mirrors(LossFree(m, refusal, n), m, Arrange(m, MAX_COUNTER_ROUNDS))
  {
    FormsAgreeWhenDisclosed(m, refusal, n);
    hide Common, Unreserved, Mirrors, LossFree, Arrange;
  }

  lemma OtherLimitDiffers(sys: TwoNodes.System, m: Meeting, limit: nat)
    requires Apart(m) && limit != MAX_COUNTER_ROUNDS && Mirrors(sys, m, Arrange(m, MAX_COUNTER_ROUNDS))
    ensures !Mirrors(sys, m, Arrange(m, limit))
  {
    hide Rounds, Candidates, Meet, LogOf;
    ApartFails(m, MAX_COUNTER_ROUNDS, [m.Offer(Initiator)]);
    if limit == 0 {
      ShortLimits(m);
    } else {
      ApartFails(m, limit, [m.Offer(Initiator)]);
    }
  }
}
