/** `meeting.schedule`: the owner's rules, the local driver as a function of what the two clones
    bring, and the driver itself over a session. */
module MeetingSchedule {
  import opened Types
  import opened LocalSession
  import opened Scheduling
  import CostSplit

  const OFFER_SIZE := 5
  const CONFIDENCE_THRESHOLD := 0.6

  /** What a clone's owner has laid down about meetings with this peer. */
  datatype Owner = Owner(
    delegated: bool,
    confidence: real,
    autoAccept: Option<bool>,
    allowsPeer: Option<bool>,
    preferred: seq<TimeRange>,
    avoided: seq<TimeRange>
  )

  /** One side: its rules, its exportable memories, its UTC offset, and whether its policy for the
      peer shares the schedule at all, which only the remote form asks. */
  datatype Party = Party(owner: Owner, memories: seq<Memory>, offset: int, shares: bool)

  datatype Meeting = Meeting(
    first: int, last: int, ranges: seq<TimeRange>, duration: int, initiator: Party, responder: Party
  ) {
    function Party(side: Side): Party {
      if side.Initiator? then initiator else responder
    }

    function Search(side: Side): Search {
      Scheduling.Search(first, last, ranges, duration, BusyOf(Party(side).memories, Party(side).offset),
        Party(side).offset)
    }

    /** What a side can offer. */
    function Slots(side: Side): seq<Slot> {
      Candidates(Search(side))
    }

    /** What it does offer. */
    function Offer(side: Side): seq<Slot> {
      Take(Slots(side), OFFER_SIZE)
    }
  }

  // The owner's rules

  /** Ranges that do not end after they start are ignored. */
  function ValidRanges(ranges: seq<TimeRange>): seq<TimeRange> {
    if ranges == [] then []
    else (if ranges[0].start < ranges[0].end then [ranges[0]] else []) + ValidRanges(ranges[1..])
  }

  predicate InRanges(time: int, ranges: seq<TimeRange>) {
    exists i :: 0 <= i < |ranges| && ranges[i].start <= time < ranges[i].end
  }

  function LocalTime(slot: Slot, offset: int): int {
    (slot.start + offset) % DAY
  }

  function PreReasons(o: Owner): seq<Reason> {
    (if o.delegated then [] else [NotDelegated])
    + if (if o.confidence < 0.0 then 0.0 else if o.confidence > 1.0 then 1.0 else o.confidence) < CONFIDENCE_THRESHOLD
      then [ConfidenceBelowThreshold] else []
  }

  function PreferenceReasons(o: Owner, selected: Option<Slot>, offset: int): seq<Reason> {
    var preferred, avoided := ValidRanges(o.preferred), ValidRanges(o.avoided);
    (if o.autoAccept == Some(false) then [AutoAcceptDisabled] else [])
    + (if preferred != [] && !(selected.Some? && InRanges(LocalTime(selected.value, offset), preferred))
       then [OutsidePreferredTime] else [])
    + if selected.Some? && InRanges(LocalTime(selected.value, offset), avoided) then [TimeAvoided] else []
  }

  /** Why the owner has to be asked, in the order in which the reasons are found. */
  function Reasons(o: Owner, selected: Option<Slot>, offset: int): seq<Reason> {
    PreReasons(o) + PreferenceReasons(o, selected, offset)
    + if o.allowsPeer == Some(false) then [RelationshipRequiresApproval] else []
  }

  datatype Verdict = AskFor(reason: Reason) | AcceptIt | NothingCommon

  /** `evaluate_meeting_schedule`. */
  function Evaluate(o: Owner, selected: Option<Slot>, offset: int): Verdict {
    var reasons := Reasons(o, selected, offset);
    if reasons != [] then AskFor(reasons[0]) else if selected.Some? then AcceptIt else NothingCommon
  }

  /** On some day of the owner's clock the slot starts at a time of this range. */
  predicate StartsIn(slot: Slot, offset: int, day: int, r: TimeRange) {
    var time := slot.start + offset - 1440 * day;
    0 <= time < 1440 && r.start <= time < r.end
  }

  /** On the owner's clock the slot starts in a range that counts. */
  ghost predicate Within(slot: Slot, offset: int, ranges: seq<TimeRange>) {
    exists r, day :: r in ranges && StartsIn(slot, offset, day, r)
  }

  lemma {:induction false} ValidRangesAreExact(ranges: seq<TimeRange>)
    ensures forall r :: r in ValidRanges(ranges) <==> r in ranges && r.start < r.end
  {
    if ranges != [] {
      ValidRangesAreExact(ranges[1..]);
    }
  }

  /** A slot is accepted without asking if and only if the owner has delegated meetings to a
      confident clone, has not reserved this peer or all decisions, and the slot's local time
      suits: in a preferred range, when there is one, and in no avoided range. */
  lemma AcceptedExactly(o: Owner, slot: Slot, offset: int)
    ensures Evaluate(o, Some(slot), offset) == AcceptIt <==>
              && o.delegated && o.confidence >= CONFIDENCE_THRESHOLD
              && o.autoAccept != Some(false) && o.allowsPeer != Some(false)
              && ((forall r :: r in o.preferred ==> r.start >= r.end) || Within(slot, offset, o.preferred))
              && !Within(slot, offset, o.avoided)
  {
    RangesDecide(o.preferred, slot, offset);
    RangesDecide(o.avoided, slot, offset);
    hide ValidRanges, InRanges, Within, LocalTime;
  }

  lemma RangesDecide(ranges: seq<TimeRange>, slot: Slot, offset: int)
    ensures InRanges(LocalTime(slot, offset), ValidRanges(ranges)) <==> Within(slot, offset, ranges)
    ensures ValidRanges(ranges) == [] <==> forall r :: r in ranges ==> r.start >= r.end
  {
    ValidRangesAreExact(ranges);
    forall r: TimeRange, day { StartsAtLocalTime(slot, offset, day, r); }
    hide LocalTime, StartsIn, ValidRanges;
    var valid, time := ValidRanges(ranges), LocalTime(slot, offset);
    if valid != [] {
      assert valid[0] in valid;
    }
    if Within(slot, offset, ranges) {
      var r, day :| r in ranges && StartsIn(slot, offset, day, r);
      assert r in valid;
    }
    if InRanges(time, valid) {
      var i :| 0 <= i < |valid| && valid[i].start <= time < valid[i].end;
      assert valid[i] in valid;
      SomeDayStarts(slot, offset, valid[i]);
    }
  }

  lemma StartsAtLocalTime(slot: Slot, offset: int, day: int, r: TimeRange)
    ensures StartsIn(slot, offset, day, r) ==> r.start <= LocalTime(slot, offset) < r.end
  {
    if StartsIn(slot, offset, day, r) {
      assert slot.start + offset - 1440 * day == LocalTime(slot, offset);
    }
  }

  lemma SomeDayStarts(slot: Slot, offset: int, r: TimeRange)
    requires r.start <= LocalTime(slot, offset) < r.end
    ensures exists day :: StartsIn(slot, offset, day, r)
  {
    assert StartsIn(slot, offset, (slot.start + offset) / 1440, r);
  }

  // The local driver

  datatype Ending =
    | Settled(decider: Side, slot: Slot)
    | Asked(decider: Side, reason: Reason, slot: Slot)
    | NoCommonSlot(decider: Side)
    | LeftOpen

  /** `offers[k]` is what stands in round k + 1. */
  datatype Run = Run(offers: seq<seq<Slot>>, ending: Ending)

  function Turn(round: nat): Side {
    CostSplit.Turn(round)
  }

  /** What the receiver of a common slot makes of it. */
  function Closing(m: Meeting, receiver: Side, slot: Slot): Ending {
    var p := m.Party(receiver);
    match Evaluate(p.owner, Some(slot), p.offset)
    case AskFor(reason) => Asked(receiver, reason, slot)
    case _ => Settled(receiver, slot)
  }

  /** The rounds, from the offers already made. */
  function Rounds(m: Meeting, limit: nat, offers: seq<seq<Slot>>): Run
    requires offers != []
    decreases limit - |offers|
  {
    var round := |offers|;
    var receiver := Turn(round);
    if round > limit then Run(offers, LeftOpen)
    else
      var common := Intersect(m.Slots(receiver), offers[round - 1]);
      if common != [] then Run(offers, Closing(m, receiver, common[0]))
      else if round == limit then Run(offers, NoCommonSlot(receiver))
      else Rounds(m, limit, offers + [m.Offer(receiver)])
  }

  /** The whole local negotiation. */
  function Arrange(m: Meeting, limit: nat): Run {
    Rounds(m, limit, [m.Offer(Initiator)])
  }

  function OfferMessages(offers: seq<seq<Slot>>): (messages: seq<Message>)
    ensures |messages| == |offers|
  {
    seq(|offers|, i requires 0 <= i < |offers| =>
      Message(i + 2, Turn(i + 1).Other(), if i == 0 then PROPOSE else COUNTER, CandidateSlots(offers[i])))
  }

  function Opened(offers: seq<seq<Slot>>): seq<Message> {
    [Message(1, Initiator, REQUEST, NoDelta)] + OfferMessages(offers)
  }

  function ClosingMessage(r: Run): seq<Message> {
    var sequence := |r.offers| + 2;
    match r.ending
    case Settled(decider, slot) => [Message(sequence, decider, ACCEPT, Accepted(AgreedSlot(slot)))]
    case Asked(decider, reason, _) => [Message(sequence, decider, REQUEST_APPROVAL, Escalated(reason))]
    case NoCommonSlot(decider) => [Message(sequence, decider, ERROR, Coded(NoAvailableSlot))]
    case LeftOpen => []
  }

  /** The session's messages after a run. */
  function Transcript(r: Run): seq<Message> {
    Opened(r.offers) + ClosingMessage(r)
  }

  /** A finished run has left a session in this state. */
  ghost predicate Records(s: Session, r: Run)
    reads s, s.pending
  {
    && s.messages == Transcript(r)
    && match r.ending
       case Settled(_, slot) => s.status == Agreed && s.agreements == [AgreedSlot(slot)]
       case Asked(decider, reason, slot) =>
         && s.status == WaitingApproval && s.pending != null
         && s.pending.decider == decider && s.pending.reason == reason && s.pending.payload == AgreedSlot(slot)
       case NoCommonSlot(_) => s.status == Failed && s.failure == Some(NoAvailableSlot)
       case LeftOpen => s.status == Open
  }

  lemma OfferMessagesGrow(offers: seq<seq<Slot>>, x: seq<Slot>)
    ensures OfferMessages(offers + [x])
         == OfferMessages(offers)
            + [Message(|offers| + 2, Turn(|offers| + 1).Other(),
                       if offers == [] then PROPOSE else COUNTER, CandidateSlots(x))]
  {
  }

  /** `run_negotiation`. */
  method RunNegotiation(s: Session, m: Meeting, limit: nat, expiresAt: int)
    requires s.Fresh()
    modifies s
    ensures s.Settled() && (s.pending != null ==> fresh(s.pending) && s.pending.expiresAt == expiresAt)
    ensures Records(s, Arrange(m, limit))
  {
    hide Candidates, OfferMessages, BusyOf, Rounds;
    var busyI := CollectBusy(m.initiator.memories, m.initiator.offset);
    var busyR := CollectBusy(m.responder.memories, m.responder.offset);
    var slotsI := Scheduling.CandidateSlots(Scheduling.Search(m.first, m.last, m.ranges, m.duration, busyI,
      m.initiator.offset));
    var slotsR := Scheduling.CandidateSlots(Scheduling.Search(m.first, m.last, m.ranges, m.duration, busyR,
      m.responder.offset));
    s.AppendMessage(Initiator, REQUEST, NoDelta);
    var offer := Take(slotsI, OFFER_SIZE);
    s.AppendMessage(Initiator, PROPOSE, CandidateSlots(offer));
    OfferMessagesGrow([], offer);
    assert OfferMessages([]) == [];
    assert [] + [offer] == [offer];
    Alternate(s, m, limit, slotsI, slotsR, expiresAt);
  }

  /** The alternating offers. */
  method Alternate(s: Session, m: Meeting, limit: nat, slotsI: seq<Slot>, slotsR: seq<Slot>, expiresAt: int)
    requires s.Valid() && s.status == Open && s.messages == Opened([m.Offer(Initiator)])
    requires slotsI == m.Slots(Initiator) && slotsR == m.Slots(Responder)
    modifies s
    ensures s.Settled() && (s.pending != null ==> fresh(s.pending) && s.pending.expiresAt == expiresAt)
    ensures Records(s, Arrange(m, limit))
  {
    hide Candidates, Intersect, OfferMessages, BusyOf, Evaluate, Closing;
    var offer := Take(slotsI, OFFER_SIZE);
    ghost var offers := [offer];
    var sender, receiver := Initiator, Responder;
    for round := 1 to limit + 1
      invariant |offers| == round && receiver == Turn(round) && sender == receiver.Other()
      invariant offers[round - 1] == offer
      invariant Rounds(m, limit, offers) == Arrange(m, limit)
      invariant s.Valid() && s.status == Open
      invariant s.messages == Opened(offers)
    {
      var mine := if receiver == Initiator then slotsI else slotsR;
      var common := Intersect(mine, offer);
      if common != [] {
        Conclude(s, m, receiver, common[0], expiresAt);
        return;
      }
      if round == limit {
        s.Fail(receiver, ERROR, NoAvailableSlot);
        return;
      }
      offer := Take(mine, OFFER_SIZE);
      s.AppendMessage(receiver, COUNTER, CandidateSlots(offer));
      OfferMessagesGrow(offers, offer);
      offers := offers + [offer];
      sender, receiver := receiver, sender;
    }
  }

  /** The receiver of a common slot accepts it or asks its owner. */
  method Conclude(s: Session, m: Meeting, receiver: Side, slot: Slot, expiresAt: int)
    requires s.Valid() && s.status == Open
    modifies s
    ensures s.Settled() && (s.pending != null ==> fresh(s.pending) && s.pending.expiresAt == expiresAt)
    ensures forall r: Run :: r.ending == Closing(m, receiver, slot) && old(s.messages) == Opened(r.offers) ==>
              Records(s, r)
  {
    hide Evaluate, OfferMessages;
    var p := m.Party(receiver);
    var verdict := Evaluate(p.owner, Some(slot), p.offset);
    if verdict.AskFor? {
      s.CreateNegotiationApproval(receiver, AgreedSlot(slot), verdict.reason, expiresAt);
    } else {
      s.Agree(receiver, AgreedSlot(slot));
    }
  }

  // What comes out of it

  /** Neither side's first candidates meet what the other side can offer. */
  ghost predicate Apart(m: Meeting) {
    !Meet(m.Slots(Responder), m.Offer(Initiator)) && !Meet(m.Slots(Initiator), m.Offer(Responder))
  }

  lemma {:induction false} ApartFails(m: Meeting, limit: nat, offers: seq<seq<Slot>>)
    requires Apart(m) && offers != [] && |offers| <= limit
    requires offers[|offers| - 1] == m.Offer(Turn(|offers|).Other())
    ensures Rounds(m, limit, offers).ending == NoCommonSlot(Turn(limit)) && |Rounds(m, limit, offers).offers| == limit
    decreases limit - |offers|
  {
    hide Candidates, Meet, Intersect;
    var receiver := Turn(|offers|);
    IntersectMeets(m.Slots(receiver), offers[|offers| - 1]);
    if |offers| < limit {
      ApartFails(m, limit, offers + [m.Offer(receiver)]);
    }
  }

  /** The outcome, exactly: for every round limit from 2 on, the run fails if and only if neither
      side's first five candidates meet the other's list, and then only in the last round;
      otherwise it settles or asks an owner in round 1 or, failing that, in round 2. */
  lemma MeetingOutcome(m: Meeting, limit: nat)
    requires limit >= 2
    ensures var r := Arrange(m, limit);
            && (r.ending.NoCommonSlot? <==> Apart(m))
            && (Apart(m) ==> |r.offers| == limit)
            && (!Apart(m) ==> (r.ending.Settled? || r.ending.Asked?)
                              && |r.offers| == (if Meet(m.Slots(Responder), m.Offer(Initiator)) then 1 else 2)
                              && r.ending.decider == Turn(|r.offers|))
  {
    hide Candidates, Meet, Intersect, Evaluate;
    var offers := [m.Offer(Initiator)];
    if Apart(m) {
      ApartFails(m, limit, offers);
    } else {
      assert Turn(1) == Responder && Turn(2) == Initiator;
      IntersectMeets(m.Slots(Responder), offers[0]);
      var next := offers + [m.Offer(Responder)];
      if !Meet(m.Slots(Responder), offers[0]) {
        assert Arrange(m, limit) == Rounds(m, limit, next);
        IntersectMeets(m.Slots(Initiator), next[1]);
      }
    }
  }

  /** The limits below 2: with 1 only the responder looks, with 0 nobody does and the session
      stays open. */
  lemma ShortLimits(m: Meeting)
    ensures Arrange(m, 1).ending.NoCommonSlot? <==> !Meet(m.Slots(Responder), m.Offer(Initiator))
    ensures forall limit: nat :: Arrange(m, limit).ending.LeftOpen? <==> limit == 0
  {
    hide Candidates, Meet, Intersect, Evaluate;
    IntersectMeets(m.Slots(Responder), m.Offer(Initiator));
    forall limit: nat ensures Arrange(m, limit).ending.LeftOpen? <==> limit == 0 {
      if limit >= 1 {
        NeverLeftOpen(m, limit, [m.Offer(Initiator)]);
      }
    }
  }

  lemma {:induction false} NeverLeftOpen(m: Meeting, limit: nat, offers: seq<seq<Slot>>)
    requires offers != [] && |offers| <= limit
    ensures !Rounds(m, limit, offers).ending.LeftOpen?
    decreases limit - |offers|
  {
    hide Candidates, Intersect, Evaluate;
    if |offers| < limit {
      NeverLeftOpen(m, limit, offers + [m.Offer(Turn(|offers|))]);
    }
  }

  /** Being free, and being allowed, are about instants, not about how a slot is written. */
  lemma SameSlotFits(s: Search, a: Slot, b: Slot)
    requires SameSlot(a, b) && s.Free(b) && s.Allows(b)
    ensures s.Free(a) && s.Allows(a)
  {
    var day, i :| s.first <= day <= s.last && 0 <= i < |s.ranges|
                  && s.Instant(day, s.ranges[i].start) <= b.start
                  && b.start + s.duration == b.end <= s.Instant(day, s.ranges[i].end);
    assert s.Instant(day, s.ranges[i].start) <= a.start;
  }

  /** A slot that is common to one side's list and the other side's offer suits both calendars. */
  lemma CommonSlotFits(m: Meeting, receiver: Side, slot: Slot)
    requires slot in Intersect(m.Slots(receiver), m.Offer(receiver.Other()))
    ensures forall side: Side :: m.Search(side).Free(slot) && m.Search(side).Allows(slot)
  {
    hide Candidates, Scheduling.Search.Free, Scheduling.Search.Allows;
    var sender := receiver.Other();
    IntersectIsExact(m.Slots(receiver), m.Offer(sender));
    CandidatesFit(m.Search(receiver), slot);
    var i :| 0 <= i < |m.Offer(sender)| && SameSlot(slot, m.Offer(sender)[i]);
    var theirs := m.Offer(sender)[i];
    assert theirs == m.Slots(sender)[i];
    CandidatesFit(m.Search(sender), theirs);
    SameSlotFits(m.Search(sender), slot, theirs);
    forall side: Side ensures m.Search(side).Free(slot) && m.Search(side).Allows(slot) {
      assert side == receiver || side == sender;
    }
  }

  /** Every slot that is agreed on, or put before an owner, is free on both calendars and lies in
      the window that the request asks for, on both sides' clocks; the decider's rules accept it
      if it is agreed on, and if it is put before the owner, the reason given is the first of
      theirs. */
  lemma {:induction false} SelectedSlotFits(m: Meeting, limit: nat, offers: seq<seq<Slot>>)
    requires offers != [] && offers[|offers| - 1] == m.Offer(Turn(|offers|).Other())
    ensures var ending := Rounds(m, limit, offers).ending;
            ending.Settled? || ending.Asked? ==>
              && (forall side: Side :: m.Search(side).Free(ending.slot) && m.Search(side).Allows(ending.slot))
              && ending.slot in Intersect(m.Slots(ending.decider), m.Offer(ending.decider.Other()))
              && var p := m.Party(ending.decider);
                 Evaluate(p.owner, Some(ending.slot), p.offset) == if ending.Settled? then AcceptIt
                   else AskFor(ending.reason)
    decreases limit - |offers|
  {
    hide Candidates, Intersect, Scheduling.Search.Free, Scheduling.Search.Allows, Reasons;
    var receiver := Turn(|offers|);
    if |offers| <= limit {
      var common := Intersect(m.Slots(receiver), offers[|offers| - 1]);
      if common != [] {
        assert common[0] in common;
        CommonSlotFits(m, receiver, common[0]);
      } else if |offers| < limit {
        SelectedSlotFits(m, limit, offers + [m.Offer(receiver)]);
      }
    }
  }

  lemma SameRanges(m: Meeting, side: Side)
    requires RangesInOrder(m.Search(Initiator))
    ensures RangesInOrder(m.Search(side))
  {
  }

  lemma FirstIsEarliest(s: Search, theirs: seq<Slot>)
    requires RangesInOrder(s) && s.duration >= 1 && Intersect(Candidates(s), theirs) != []
    ensures forall x :: x in Candidates(s) && Has(theirs, x) ==> Intersect(Candidates(s), theirs)[0].start <= x.start
  {
    hide Intersect, Has, AllSlots;
    var mine := Candidates(s);
    IntersectIsExact(mine, theirs);
    EarliestFirst(s);
    var i :| 0 <= i < |mine| && mine[i] == Intersect(mine, theirs)[0] && forall j :: 0 <= j < i ==>
      !Has(theirs, mine[j]);
    forall x | x in mine && Has(theirs, x) ensures mine[i].start <= x.start {
      var j :| 0 <= j < |mine| && mine[j] == x;
    }
  }

  /** With the ranges in order, no earlier slot was both on the decider's list and on offer. */
  lemma {:induction false} EarliestIsSelected(m: Meeting, limit: nat, offers: seq<seq<Slot>>)
    requires offers != [] && offers[|offers| - 1] == m.Offer(Turn(|offers|).Other())
    requires m.duration >= 1 && RangesInOrder(m.Search(Initiator))
    ensures var ending := Rounds(m, limit, offers).ending;
            ending.Settled? || ending.Asked? ==>
              forall x :: x in m.Slots(ending.decider) && Has(m.Offer(ending.decider.Other()), x) ==>
                ending.slot.start <= x.start
    decreases limit - |offers|
  {
    hide Candidates, Intersect, Evaluate, Has, RangesInOrder;
    var receiver := Turn(|offers|);
    if |offers| <= limit {
      var mine := m.Slots(receiver);
      var common := Intersect(mine, offers[|offers| - 1]);
      if common != [] {
        SameRanges(m, receiver);
        FirstIsEarliest(m.Search(receiver), offers[|offers| - 1]);
      } else if |offers| < limit {
        EarliestIsSelected(m, limit, offers + [m.Offer(receiver)]);
      }
    }
  }

  /** When one side has no more than five candidates, none is missed: the run fails if and only
      if the two lists have nothing in common. */
  lemma NothingMissedInShortLists(m: Meeting, limit: nat)
    requires limit >= 2 && (|m.Slots(Initiator)| <= OFFER_SIZE || |m.Slots(Responder)| <= OFFER_SIZE)
    ensures Arrange(m, limit).ending.NoCommonSlot? <==> !Meet(m.Slots(Responder), m.Slots(Initiator))
  {
    MeetingOutcome(m, limit);
    hide Candidates, Rounds;
    MeetIsSymmetric(m.Slots(Responder), m.Slots(Initiator));
    MeetOfferMeets(m.Slots(Responder), m.Slots(Initiator));
    MeetOfferMeets(m.Slots(Initiator), m.Slots(Responder));
  }

  lemma MeetOfferMeets(a: seq<Slot>, b: seq<Slot>)
    ensures Meet(a, Take(b, OFFER_SIZE)) ==> Meet(a, b)
  {
    if Meet(a, Take(b, OFFER_SIZE)) {
      var i :| 0 <= i < |a| && Has(Take(b, OFFER_SIZE), a[i]);
      var j :| 0 <= j < |Take(b, OFFER_SIZE)| && SameSlot(a[i], Take(b, OFFER_SIZE)[j]);
      assert SameSlot(a[i], b[j]);
      assert Has(b, a[i]);
    }
  }
}
