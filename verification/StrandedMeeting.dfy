/** How two honest nodes get past the protocol's limit: two owners who are asked about nothing, again
    and again, and approve. */
module StrandedMeeting {
  import opened Types
  import Scheduling
  import opened MeetingSchedule
  import opened MeetingScheduleLimits
  import opened ProtocolState
  import opened RemoteNegotiation
  import opened TwoNodes
  import opened LossFreeRelay
  import opened RemoteMeeting
  import opened RemoteMeetingLimits
  import opened ExtraCounter

  ghost predicate Reachable(sys: System) {
    exists steps :: Execute(steps) == sys
  }

  lemma ReachableNext(sys: System, step: Step)
    requires Reachable(sys)
    ensures Reachable(Next(sys, step))
  {
    var steps :| Execute(steps) == sys;
    assert (steps + [step])[..|steps|] == steps;
    hide Next;
    assert Execute(steps + [step]) == Next(sys, step);
  }

  lemma ReachableDelivery(answer: Answer, sys: System)
    requires Reachable(sys)
    ensures Reachable(Delivery(answer, sys))
  {
    hide Next, HandlingOf, Reachable;
    forall s, step | Reachable(s) ensures Reachable(Next(s, step)) {
      ReachableNext(s, step);
    }
  }

  /** The session may start, and neither side finds a common slot nor is free to go on without
      asking its owner. */
  ghost predicate AsksAboutNothing(m: Meeting) {
    MayStart(m) && Sharing(m) && forall side: Side :: !Common(m, side) && !Unreserved(m, side)
  }

  /** The standing offer is delivered, and the owner of the node that has heard it approves. */
  function Approved(m: Meeting, refusal: Handling, sys: System, mover: Side): System {
    Next(Delivery(Answers(m, refusal), sys), Decide(mover, ApproveIt, None))
  }

  /** What becomes of a node whose owner is asked about nothing and approves. */
  lemma ApprovedAboutNothing(m: Meeting, offers: seq<seq<Slot>>, reason: Reason)
    requires offers != []
    ensures var mover := Turn(|offers|);
            var asked := React(OpenSession(mover, LogOf(m, offers)), AskOwner(reason, AskSlot(None, m.Offer(mover))));
            Resolve(asked, ApproveIt, None) == OpenSession(mover, LogOf(m, offers + [m.Offer(mover)]))
  {
    hide Scheduling.Candidates, LogOf, RequestPayload, CounterRounds;
    RequestStaysFirst(m, offers, LogOf(m, offers)[0]);
    LogGrows(m, offers, m.Offer(Turn(|offers|)));
  }

  lemma RepliesAboutNothing(m: Meeting, side: Side)
    requires AsksAboutNothing(m)
    ensures exists reason ::
              DecideRemoteReply(m.Party(side), m.Slots(side), RemoteNegotiation.Candidates(m.Offer(side.Other())))
              == AskOwner(reason, AskSlot(None, m.Offer(side)))
  {
    assert !Common(m, side) && !Unreserved(m, side);
    hide Scheduling.Intersect, Scheduling.Candidates, Scheduling.Meet, Reasons;
    Scheduling.IntersectMeets(m.Slots(side), m.Offer(side.Other()));
    ReplyIs(m, side, m.Offer(side.Other()));
  }

  /** The mover, when its owner has been asked about nothing. */
  function Asking(m: Meeting, offers: seq<seq<Slot>>, reason: Reason): Session {
    var mover := Turn(|offers|);
    React(OpenSession(mover, LogOf(m, offers)), AskOwner(reason, AskSlot(None, m.Offer(mover))))
  }

  lemma DeliveredAboutNothing(sys: System, m: Meeting, refusal: Handling, offers: seq<seq<Slot>>)
    requires AsksAboutNothing(m) && AtRound(sys, m, offers) && |offers| <= MAX_COUNTER_ROUNDS + 1
    requires offers[|offers| - 1] == m.Offer(Turn(|offers|).Other())
    ensures var mover, after := Turn(|offers|), Delivery(Answers(m, refusal), sys);
            && (exists reason :: after.Node(mover) == Some(Asking(m, offers, reason)))
            && after.Node(mover.Other()) == Some(OpenSession(mover.Other(), LogOf(m, offers)))
  {
    var mover := Turn(|offers|);
    RepliesAboutNothing(m, mover);
    OfferDelivered(sys, m, refusal, offers);
    hide Scheduling.Candidates, DecideRemoteReply, Delivery, LogOf, React, AsksAboutNothing;
    var reason :| DecideRemoteReply(m.Party(mover), m.Slots(mover), RemoteNegotiation.Candidates(offers[|offers| - 1]))
               == AskOwner(reason, AskSlot(None, m.Offer(mover)));
    assert Delivery(Answers(m, refusal), sys).Node(mover) == Some(Asking(m, offers, reason));
  }

  lemma ApprovedRound(sys: System, m: Meeting, refusal: Handling, offers: seq<seq<Slot>>)
    requires AsksAboutNothing(m) && AtRound(sys, m, offers) && |offers| <= MAX_COUNTER_ROUNDS + 1
    requires offers[|offers| - 1] == m.Offer(Turn(|offers|).Other())
    ensures AtRound(Approved(m, refusal, sys, Turn(|offers|)), m, offers + [m.Offer(Turn(|offers|))])
  {
    var mover := Turn(|offers|);
    DeliveredAboutNothing(sys, m, refusal, offers);
    assert offers != [];
    hide AtRound, AsksAboutNothing, Scheduling.Candidates, Delivery, LogOf, Resolve, React, OpenSession;
    var reason :| Delivery(Answers(m, refusal), sys).Node(mover) == Some(Asking(m, offers, reason));
    ApprovedAboutNothing(m, offers, reason);
    NextRound(Approved(m, refusal, sys, mover), m, offers, m.Offer(mover));
  }

  lemma NextRound(sys: System, m: Meeting, offers: seq<seq<Slot>>, x: seq<Slot>)
    requires var mover := Turn(|offers|);
             && sys.Node(mover) == Some(OpenSession(mover, LogOf(m, offers + [x])))
             && sys.Node(mover.Other()) == Some(OpenSession(mover.Other(), LogOf(m, offers)))
    ensures AtRound(sys, m, offers + [x])
  {
    LogGrows(m, offers, x);
    hide LogOf;
    assert LogOf(m, offers + [x])[..|offers| + 1] == LogOf(m, offers);
  }

  /** The offers of the two sides in turn. */
  function OffersInTurn(m: Meeting, n: nat): (offers: seq<seq<Slot>>)
    ensures |offers| == n
  {
    if n == 0 then [] else OffersInTurn(m, n - 1) + [m.Offer(Turn(n).Other())]
  }

  /** The session after the opening and some deliveries, each followed by an approval. */
  function Approvals(m: Meeting, refusal: Handling, n: nat): System {
    if n == 0 then Exchange(m, refusal, 1)
    else Approved(m, refusal, Approvals(m, refusal, n - 1), Turn(n))
  }

  lemma {:induction false} ApprovalsGoOn(m: Meeting, refusal: Handling, n: nat)
    requires AsksAboutNothing(m) && n <= MAX_COUNTER_ROUNDS + 1
    ensures AtRound(Approvals(m, refusal, n), m, OffersInTurn(m, n + 1))
  {
    hide AtRound, Approved, Scheduling.Candidates, Common, Unreserved;
    if n == 0 {
      RequestDelivered(m, refusal);
      assert OffersInTurn(m, 1) == [m.Offer(Initiator)];
    } else {
      ApprovalsGoOn(m, refusal, n - 1);
      ApprovedRound(Approvals(m, refusal, n - 1), m, refusal, OffersInTurn(m, n));
      assert Turn(n + 1).Other() == Turn(n);
    }
  }

  lemma {:induction false} ApprovalsAreReachable(m: Meeting, refusal: Handling, n: nat)
    ensures Reachable(Approvals(m, refusal, n))
  {
    hide Reachable, Delivery;
    if n == 0 {
      NothingIsReachable();
      ReachableNext(NOTHING, StartNegotiation(RequestOf(m), RemoteNegotiation.Candidates(m.Offer(Initiator))));
      ReachableDelivery(Answers(m, refusal), Started(m));
      assert Exchange(m, refusal, 1) == Deliveries(Answers(m, refusal), Delivery(Answers(m, refusal), Started(m)), 0);
    } else {
      var before := Approvals(m, refusal, n - 1);
      ApprovalsAreReachable(m, refusal, n - 1);
      ReachableDelivery(Answers(m, refusal), before);
      ReachableNext(Delivery(Answers(m, refusal), before), Decide(Turn(n), ApproveIt, None));
    }
  }

  lemma NothingIsReachable()
    ensures Reachable(NOTHING)
  {
    assert Execute([]) == NOTHING;
  }

  /** Whenever neither side finds a common slot nor is free to go on, four approvals strand the
      session. */
  lemma ApprovalsStrand(m: Meeting, refusal: Handling)
    requires AsksAboutNothing(m)
    ensures var sys := Approvals(m, refusal, MAX_COUNTER_ROUNDS + 1);
            Reachable(sys) && ExtraCounterSaid(sys)
  {
    var n := MAX_COUNTER_ROUNDS + 1;
    var offers := OffersInTurn(m, n + 1);
    hide Approvals, AtRound, LogOf, CounterRounds, Reachable, AsksAboutNothing, OffersInTurn, Delivery, OverLimit;
    ApprovalsAreReachable(m, refusal, n);
    ApprovalsGoOn(m, refusal, n);
    FifthOffer(Approvals(m, refusal, n), m, offers);
  }

  lemma FifthOffer(sys: System, m: Meeting, offers: seq<seq<Slot>>)
    requires AtRound(sys, m, offers) && |offers| == MAX_COUNTER_ROUNDS + 2
    ensures sys.initiator.Some? && OverLimit(sys.initiator.value)
  {
    LogFacts(m, offers);
    hide LogOf, CounterRounds;
  }

  /** An owner who is busy at midnight and prefers to meet then. */
  function Stubborn(): Party {
    MeetingSchedule.Party(
      WILLING.(preferred := [Scheduling.TimeRange(0, 30)]),
      [Scheduling.Memory(true, [Scheduling.BusyItem(0, 30, None)], true)], 0, true)
  }

  /** Such meetings exist. */
  lemma StubbornOwnersAreAsked()
    ensures AsksAboutNothing(AtMidnight(Stubborn(), Stubborn()))
  {
    var m := AtMidnight(Stubborn(), Stubborn());
    BusyIs(0, 30);
    forall side: Side ensures m.Slots(side) == [] {
      assert m.Search(side).busy[0] == Slot(0, 30, 0);
      assert Scheduling.Overlaps(HalfHour(0), m.Search(side).busy[0]);
      OneSlot(m, side);
    }
    hide Scheduling.Candidates, Scheduling.BusyOf;
    forall side: Side ensures !Common(m, side) && !Unreserved(m, side) {
      UnreservedExactly(m, side);
      assert Scheduling.TimeRange(0, 30) in m.Party(side).owner.preferred;
    }
  }
}
