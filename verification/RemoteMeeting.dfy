/** `meeting.schedule` message by message: exactly when two nodes over a Relay that loses nothing
    do what the local driver does. A node works on what its owner's policy for the peer discloses;
    the local driver works on everything exportable. */
module RemoteMeeting {
  import opened Types
  import Scheduling
  import opened MeetingSchedule
  import opened ProtocolState
  import opened RemoteNegotiation
  import opened TwoNodes
  import opened LossFreeRelay

  /** The domain's answer to an offer. Unlike the local driver, it asks the owner's rules even
      when there is no common slot to ask about. */
  function DecideRemoteReply(p: Party, own: seq<Slot>, received: Delta): Reply {
    var common := Scheduling.Intersect(own, if received.Candidates? then received.slots else []);
    var selected := if common != [] then Some(common[0]) else None;
    match Evaluate(p.owner, selected, p.offset)
    case AcceptIt => AutoAccept(AgreedSlot(selected.value))
    case AskFor(reason) => AskOwner(reason, AskSlot(selected, Take(own, OFFER_SIZE)))
    case NothingCommon => CounterOffer(RemoteNegotiation.Candidates(Take(own, OFFER_SIZE)))
  }

  function RequestOf(m: Meeting): Request {
    MeetingRequest(Text(0), m.duration)
  }

  /** Each side answers from its own calendar. One that does not share its schedule raises an error
      instead, which is `refusal`: it rolls the message back, or comes after the commit that saves
      a default policy. */
  function Answers(m: Meeting, refusal: Handling): Answer {
    (role: Side, log: seq<Wire>, received: Wire) =>
      if m.Party(role).shares then Normally(DecideRemoteReply(m.Party(role), m.Slots(role), received.delta))
        else refusal
  }

  /** The initiator's node starts only what its owner has delegated, and shares its schedule for. */
  predicate MayStart(m: Meeting) {
    m.initiator.owner.delegated && m.initiator.shares
  }

  function Started(m: Meeting): System {
    if MayStart(m)
    then Next(NOTHING, StartNegotiation(RequestOf(m), RemoteNegotiation.Candidates(m.Offer(Initiator))))
    else NOTHING
  }

  /** The distributed negotiation after n deliveries, if everything is disclosed. */
  function Exchange(m: Meeting, refusal: Handling, n: nat): System {
    Deliveries(Answers(m, refusal), Started(m), n)
  }

  function OfferWire(index: nat, slots: seq<Slot>): Wire {
    var kind := if index == 0 then PROPOSE else COUNTER;
    Wire(Turn(index + 1).Other(), index + 2, kind, None, RemoteNegotiation.Candidates(slots))
  }

  /** The log once these offers have been made. */
  function LogOf(m: Meeting, offers: seq<seq<Slot>>): (log: seq<Wire>)
    ensures |log| == |offers| + 1
  {
    if offers == [] then [Wire(Initiator, 1, REQUEST, Some(RequestOf(m)), NoDelta)]
    else
      var n := |offers| - 1;
      LogOf(m, offers[..n]) + [OfferWire(n, offers[n])]
  }

  lemma LogGrows(m: Meeting, offers: seq<seq<Slot>>, x: seq<Slot>)
    ensures LogOf(m, offers + [x]) == LogOf(m, offers) + [OfferWire(|offers|, x)]
  {
    assert (offers + [x])[..|offers|] == offers;
  }

  lemma {:induction false} LogFacts(m: Meeting, offers: seq<seq<Slot>>)
    ensures CounterRounds(LogOf(m, offers)) == if offers == [] then 0 else |offers| - 1
    ensures LogOf(m, offers)[0].kind == REQUEST && LogOf(m, offers)[0].request == Some(RequestOf(m))
    ensures offers != [] ==> LogOf(m, offers)[|offers|] == OfferWire(|offers| - 1, offers[|offers| - 1])
  {
    var log := LogOf(m, offers);
    if offers == [] {
      assert log[..0] == [];
    } else {
      LogFacts(m, offers[..|offers| - 1]);
      assert log[..|log| - 1] == LogOf(m, offers[..|offers| - 1]);
    }
  }

  lemma RequestStaysFirst(m: Meeting, offers: seq<seq<Slot>>, w: Wire)
    ensures RequestPayload(LogOf(m, offers)) == RequestPayload(LogOf(m, offers) + [w]) == Some(RequestOf(m))
  {
    LogFacts(m, offers);
  }

  /** The offer that stands has been sent and not been delivered yet. */
  predicate AtRound(sys: System, m: Meeting, offers: seq<seq<Slot>>) {
    var log := LogOf(m, offers);
    var mover := Turn(|offers|);
    && offers != []
    && sys.Node(mover) == Some(OpenSession(mover, log[..|log| - 1]))
    && sys.Node(mover.Other()) == Some(OpenSession(mover.Other(), log))
  }

  /** The session that a finished run leaves on one side. */
  function FinalSession(m: Meeting, r: Run, side: Side): Session
    requires !r.ending.LeftOpen?
  {
    var log := LogOf(m, r.offers);
    match r.ending
    case Settled(decider, slot) =>
      Session(side, log + [Wire(decider, |log| + 1, ACCEPT, None, Terms(AgreedSlot(slot)))], |log| + 1, Agreed, None,
        Some(MeetingAgreement(Some(slot))))
    case NoCommonSlot(decider) =>
      Session(side, log + [Wire(decider, |log| + 1, ERROR, None, Coded(NoAvailableSlot))], |log| + 1, Failed, None,
        None)
    case Asked(decider, reason, slot) =>
      if side == decider
      then Session(side, log, |log|, WaitingApproval,
        Some(Question(reason, MeetingProposal(Some(slot), m.Offer(side)))), None)
      else OpenSession(side, log)
  }

  /** Both nodes hold what the run says: the same offers, the same ending. */
  predicate Mirrors(sys: System, m: Meeting, r: Run) {
    && !r.ending.LeftOpen?
    && sys.initiator == Some(FinalSession(m, r, Initiator))
    && sys.responder == Some(FinalSession(m, r, Responder))
  }

  /** A side that has asked its owner about no slot at all. */
  predicate AskedAboutNothing(sys: System, side: Side) {
    var node := sys.Node(side);
    && node.Some? && node.value.pending.Some?
    && node.value.pending.value.proposal.MeetingProposal? && node.value.pending.value.proposal.selected.None?
  }

  lemma NothingIsNoEnding(sys: System, m: Meeting, r: Run, side: Side)
    requires AskedAboutNothing(sys, side)
    ensures !Mirrors(sys, m, r)
  {
    hide LogOf;
  }

  predicate Sharing(m: Meeting) {
    m.initiator.shares && m.responder.shares
  }

  /** The state machine lets the standing offer in. */
  lemma OfferAdmitted(m: Meeting, offers: seq<seq<Slot>>)
    requires 1 <= |offers| <= MAX_COUNTER_ROUNDS + 1
    ensures var log := LogOf(m, offers);
            Refused(Some(OpenSession(Turn(|offers|), log[..|log| - 1])), log[|log| - 1]).None?
  {
    var log := LogOf(m, offers);
    var before := offers[..|offers| - 1];
    LogFacts(m, offers);
    LogFacts(m, before);
    assert log[..|log| - 1] == LogOf(m, before);
    hide LogOf, CounterRounds;
  }

  lemma OfferDelivered(sys: System, m: Meeting, refusal: Handling, offers: seq<seq<Slot>>)
    requires Sharing(m)
    requires AtRound(sys, m, offers) && |offers| <= MAX_COUNTER_ROUNDS + 1
    ensures var mover := Turn(|offers|);
            var after := Delivery(Answers(m, refusal), sys);
            var reply := DecideRemoteReply(m.Party(mover), m.Slots(mover),
              RemoteNegotiation.Candidates(offers[|offers| - 1]));
            && after.Node(mover) == Some(React(OpenSession(mover, LogOf(m, offers)), reply))
            && after.Node(mover.Other()) == sys.Node(mover.Other())
  {
    var mover := Turn(|offers|);
    var log := LogOf(m, offers);
    LogFacts(m, offers);
    OfferAdmitted(m, offers);
    var w := log[|offers|];
    hide LogOf, React, DecideRemoteReply, Refused, Delivery, Scheduling.Candidates;
    assert log[..|log| - 1] + [w] == log;
    UnderwayIsDelivered(Answers(m, refusal), sys, mover.Other(), log[..|log| - 1], w);
  }

  /** What the mover has to say when a slot is common, and when none is. */
  lemma ReplyIs(m: Meeting, receiver: Side, offer: seq<Slot>)
    ensures var p := m.Party(receiver);
            var common := Scheduling.Intersect(m.Slots(receiver), offer);
            var reasons := Reasons(p.owner, None, p.offset);
            DecideRemoteReply(p, m.Slots(receiver), RemoteNegotiation.Candidates(offer)) ==
              if common != [] then
                match Closing(m, receiver, common[0])
                case Asked(_, reason, slot) => AskOwner(reason, AskSlot(Some(slot), m.Offer(receiver)))
                case _ => AutoAccept(AgreedSlot(common[0]))
              else if reasons != [] then AskOwner(reasons[0], AskSlot(None, m.Offer(receiver)))
              else CounterOffer(RemoteNegotiation.Candidates(m.Offer(receiver)))
  {
    hide Scheduling.Intersect, Scheduling.Candidates, Reasons;
  }

  /** The owner has laid down nothing that makes the agent ask before any slot is found. */
  predicate Unreserved(m: Meeting, side: Side) {
    Reasons(m.Party(side).owner, None, m.Party(side).offset) == []
  }

  ghost predicate Common(m: Meeting, receiver: Side) {
    Scheduling.Meet(m.Slots(receiver), m.Offer(receiver.Other()))
  }

  /** The mover has said the last word, and the other node has not heard it yet. */
  predicate LastWordSaid(sys: System, m: Meeting, r: Run) {
    var mover := Turn(|r.offers|);
    && r.offers != [] && !r.ending.LeftOpen? && r.ending.decider == mover
    && sys.Node(mover) == Some(FinalSession(m, r, mover))
    && sys.Node(mover.Other()) == Some(OpenSession(mover.Other(), LogOf(m, r.offers)))
  }

  lemma ClosingDelivered(sys: System, m: Meeting, refusal: Handling, offers: seq<seq<Slot>>)
    requires Sharing(m)
    requires AtRound(sys, m, offers) && |offers| <= MAX_COUNTER_ROUNDS
    requires Scheduling.Intersect(m.Slots(Turn(|offers|)), offers[|offers| - 1]) != []
    ensures LastWordSaid(Delivery(Answers(m, refusal), sys), m, Rounds(m, MAX_COUNTER_ROUNDS, offers))
  {
    hide Scheduling.Intersect, Scheduling.Candidates, Evaluate, Delivery, LogOf, RequestPayload, CounterRounds;
    var mover := Turn(|offers|);
    var r := Rounds(m, MAX_COUNTER_ROUNDS, offers);
    OfferDelivered(sys, m, refusal, offers);
    ReplyIs(m, mover, offers[|offers| - 1]);
    hide DecideRemoteReply;
    RequestStaysFirst(m, offers, LogOf(m, offers)[0]);
  }

  lemma ErrorDelivered(sys: System, m: Meeting, refusal: Handling, offers: seq<seq<Slot>>)
    requires Sharing(m)
    requires AtRound(sys, m, offers) && |offers| == MAX_COUNTER_ROUNDS
    requires Scheduling.Intersect(m.Slots(Turn(|offers|)), offers[|offers| - 1]) == [] && Unreserved(m, Turn(|offers|))
    ensures LastWordSaid(Delivery(Answers(m, refusal), sys), m, Rounds(m, MAX_COUNTER_ROUNDS, offers))
  {
    hide Scheduling.Intersect, Scheduling.Candidates, Reasons, Delivery, LogOf, RequestPayload, CounterRounds;
    var mover := Turn(|offers|);
    OfferDelivered(sys, m, refusal, offers);
    ReplyIs(m, mover, offers[|offers| - 1]);
    hide DecideRemoteReply;
    LogFacts(m, offers);
    RequestStaysFirst(m, offers, LogOf(m, offers)[0]);
  }

  lemma CounterDelivered(sys: System, m: Meeting, refusal: Handling, offers: seq<seq<Slot>>)
    requires Sharing(m)
    requires AtRound(sys, m, offers) && |offers| < MAX_COUNTER_ROUNDS
    requires Scheduling.Intersect(m.Slots(Turn(|offers|)), offers[|offers| - 1]) == [] && Unreserved(m, Turn(|offers|))
    ensures AtRound(Delivery(Answers(m, refusal), sys), m, offers + [m.Offer(Turn(|offers|))])
  {
    hide Scheduling.Intersect, Scheduling.Candidates, Reasons, Delivery, LogOf, RequestPayload, CounterRounds;
    var mover := Turn(|offers|);
    var log := LogOf(m, offers);
    OfferDelivered(sys, m, refusal, offers);
    ReplyIs(m, mover, offers[|offers| - 1]);
    hide DecideRemoteReply;
    LogFacts(m, offers);
    LogGrows(m, offers, m.Offer(mover));
    assert (log + [OfferWire(|offers|, m.Offer(mover))])[..|log|] == log;
  }

  lemma NothingDelivered(sys: System, m: Meeting, refusal: Handling, offers: seq<seq<Slot>>, n: nat)
    requires Sharing(m)
    requires AtRound(sys, m, offers) && |offers| <= MAX_COUNTER_ROUNDS && n >= 1
    requires Scheduling.Intersect(m.Slots(Turn(|offers|)), offers[|offers| - 1]) == [] && !Unreserved(m, Turn(|offers|))
    ensures AskedAboutNothing(Deliveries(Answers(m, refusal), sys, n), Turn(|offers|))
  {
    hide Scheduling.Intersect, Scheduling.Candidates, Reasons, Delivery, LogOf, RequestPayload, CounterRounds;
    var mover := Turn(|offers|);
    OfferDelivered(sys, m, refusal, offers);
    RequestStaysFirst(m, offers, LogOf(m, offers)[0]);
    ReplyIs(m, mover, offers[|offers| - 1]);
    hide DecideRemoteReply;
    Quiet(Answers(m, refusal), Delivery(Answers(m, refusal), sys), n - 1);
  }

  /** What the closing word of a run makes of a session that has everything before it. */
  lemma ClosingWordProcessed(m: Meeting, r: Run, mover: Side, handling: Handling)
    requires !r.ending.LeftOpen? && !r.ending.Asked? && r.ending.decider == mover
    ensures var log := LogOf(m, r.offers);
            var w := FinalSession(m, r, mover).log[|log|];
            && FinalSession(m, r, mover).log == log + [w]
            && w.sender == mover && w.sequence == |log| + 1 && w.kind in {ACCEPT, ERROR}
            && Process(OpenSession(mover.Other(), log), w, handling) == FinalSession(m, r, mover.Other())
  {
    hide LogOf, RequestPayload, CounterRounds;
    var log := LogOf(m, r.offers);
    RequestStaysFirst(m, r.offers, FinalSession(m, r, mover).log[|log|]);
  }

  /** The last word closes the other node's session too; a question to the owner says none. */
  lemma LastWordHeard(sys: System, m: Meeting, refusal: Handling, r: Run)
    requires LastWordSaid(sys, m, r)
    ensures Mirrors(Delivery(Answers(m, refusal), sys), m, r)
  {
    if r.ending.Asked? {
      hide LogOf;
      assert Delivery(Answers(m, refusal), sys) == sys;
    } else {
      ClosingWordHeard(sys, m, refusal, r);
    }
  }

  lemma ClosingWordHeard(sys: System, m: Meeting, refusal: Handling, r: Run)
    requires LastWordSaid(sys, m, r) && !r.ending.Asked?
    ensures Mirrors(Delivery(Answers(m, refusal), sys), m, r)
  {
    var mover := Turn(|r.offers|);
    var log := LogOf(m, r.offers);
    LogFacts(m, r.offers);
    hide LogOf, FinalSession, HandlingOf, Delivery, Process;
    var w := FinalSession(m, r, mover).log[|log|];
    ClosingWordProcessed(m, r, mover, HandlingOf(Answers(m, refusal), sys.Node(mover.Other()), w));
    ClosingIsAdmitted(mover.Other(), log, w);
    hide Refused;
    UnderwayIsDelivered(Answers(m, refusal), sys, mover, log, w);
  }

  lemma MirrorsIsQuiet(sys: System, m: Meeting, refusal: Handling, r: Run, n: nat)
    requires Mirrors(sys, m, r)
    ensures Deliveries(Answers(m, refusal), sys, n) == sys
  {
    hide LogOf;
    Quiet(Answers(m, refusal), sys, n);
  }

  /** From this round on, whoever finds no common slot is free to go on. */
  ghost predicate Agreeable(m: Meeting, round: nat)
    decreases MAX_COUNTER_ROUNDS - round
  {
    Common(m, Turn(round))
    || (Unreserved(m, Turn(round)) && (round >= MAX_COUNTER_ROUNDS || Agreeable(m, round + 1)))
  }

  lemma EndFollows(sys: System, m: Meeting, refusal: Handling, r: Run, n: nat)
    requires LastWordSaid(Delivery(Answers(m, refusal), sys), m, r) && n >= 2
    ensures Mirrors(Deliveries(Answers(m, refusal), sys, n), m, r)
  {
    hide Delivery, Mirrors, LastWordSaid;
    var next := Delivery(Answers(m, refusal), sys);
    LastWordHeard(next, m, refusal, r);
    MirrorsIsQuiet(Delivery(Answers(m, refusal), next), m, refusal, r, n - 2);
    assert Deliveries(Answers(m, refusal), sys, n) == Deliveries(Answers(m, refusal), next, n - 1);
    assert Deliveries(Answers(m, refusal), next, n - 1)
             == Deliveries(Answers(m, refusal), Delivery(Answers(m, refusal), next), n - 2);
  }

  /** From any round on, the remaining deliveries reproduce the local run, unless an owner is asked
      about nothing. */
  lemma {:induction false} DeliveriesFollowRounds(sys: System, m: Meeting, refusal: Handling, offers: seq<seq<Slot>>,
      n: nat)
    requires Sharing(m)
    requires AtRound(sys, m, offers) && offers != [] && |offers| <= MAX_COUNTER_ROUNDS
    requires offers[|offers| - 1] == m.Offer(Turn(|offers|).Other())
    requires n >= MAX_COUNTER_ROUNDS - |offers| + 2
    ensures var after := Deliveries(Answers(m, refusal), sys, n);
            if Agreeable(m, |offers|) then Mirrors(after, m, Rounds(m, MAX_COUNTER_ROUNDS, offers))
            else AskedAboutNothing(after, Initiator) || AskedAboutNothing(after, Responder)
    decreases n
  {
    hide AtRound, Delivery, Mirrors, LastWordSaid, AskedAboutNothing, Unreserved, Scheduling.Intersect,
           Scheduling.Meet, Scheduling.Candidates;
    var mover := Turn(|offers|);
    var limit := MAX_COUNTER_ROUNDS;
    Scheduling.IntersectMeets(m.Slots(mover), offers[|offers| - 1]);
    if Common(m, mover) {
      ClosingDelivered(sys, m, refusal, offers);
      EndFollows(sys, m, refusal, Rounds(m, limit, offers), n);
    } else if !Unreserved(m, mover) {
      NothingDelivered(sys, m, refusal, offers, n);
      assert mover == Initiator || mover == Responder;
    } else if |offers| == limit {
      ErrorDelivered(sys, m, refusal, offers);
      EndFollows(sys, m, refusal, Rounds(m, limit, offers), n);
    } else {
      CounterDelivered(sys, m, refusal, offers);
      DeliveriesFollowRounds(Delivery(Answers(m, refusal), sys), m, refusal, offers + [m.Offer(mover)], n - 1);
    }
  }

  lemma RequestDelivered(m: Meeting, refusal: Handling)
    requires MayStart(m)
    ensures AtRound(Exchange(m, refusal, 1), m, [m.Offer(Initiator)])
  {
    hide Scheduling.Candidates;
    var offers := [m.Offer(Initiator)];
    var start := Started(m);
    assert Delivery(Answers(m, refusal), start) == Handover(Answers(m, refusal), start, Initiator, 0);
    assert Exchange(m, refusal, 1) == Deliveries(Answers(m, refusal), Delivery(Answers(m, refusal), start), 0);
    assert offers[..0] == [];
    var log := LogOf(m, offers);
    assert log == LogOf(m, []) + [OfferWire(0, offers[0])];
    assert log == start.Log(Initiator) && log[..1] == [log[0]];
    assert Receive(None, log[0], Unanswered) == Some(OpenSession(Responder, [log[0]]));
  }

  lemma AfterRequest(m: Meeting, refusal: Handling, n: nat)
    requires n >= 1
    ensures Exchange(m, refusal, n) == Deliveries(Answers(m, refusal), Exchange(m, refusal, 1), n - 1)
  {
    var start := Started(m);
    assert Exchange(m, refusal, n) == Deliveries(Answers(m, refusal), Delivery(Answers(m, refusal), start), n - 1);
    assert Exchange(m, refusal, 1) == Deliveries(Answers(m, refusal), Delivery(Answers(m, refusal), start), 0);
  }

  /** Nobody has decided anything. */
  predicate Undecided(sys: System) {
    sys.initiator.None? || (sys.responder.Some? && sys.initiator.value.status == Open
      && sys.responder.value.status == Open)
  }

  lemma UndecidedIsNoEnding(sys: System, m: Meeting, r: Run)
    requires Undecided(sys)
    ensures !Mirrors(sys, m, r)
  {
    hide LogOf;
  }

  /** A responder that does not share its schedule never answers. */
  lemma {:induction false} RefusalsStay(sys: System, m: Meeting, refusal: Handling, n: nat)
    requires !m.responder.shares && !refusal.Normally?
    requires AtRound(sys, m, [m.Offer(Initiator)])
          || (Undecided(sys) && sys.initiator.Some? && |sys.Log(Initiator)| == |sys.Log(Responder)|)
    ensures Undecided(Deliveries(Answers(m, refusal), sys, n))
    decreases n
  {
    hide Scheduling.Candidates;
    if n > 0 {
      if |sys.Log(Initiator)| == |sys.Log(Responder)| {
        Quiet(Answers(m, refusal), sys, n);
      } else {
        RefusedOffer(sys, m, refusal);
        hide Delivery, LogOf, AtRound;
        RefusalsStay(Delivery(Answers(m, refusal), sys), m, refusal, n - 1);
      }
    }
  }

  lemma RefusedOffer(sys: System, m: Meeting, refusal: Handling)
    requires !m.responder.shares && !refusal.Normally? && AtRound(sys, m, [m.Offer(Initiator)])
    ensures var after := Delivery(Answers(m, refusal), sys);
            AtRound(after, m, [m.Offer(Initiator)])
            || (Undecided(after) && after.initiator.Some? && |after.Log(Initiator)| == |after.Log(Responder)|)
  {
    hide Scheduling.Candidates;
    var offers := [m.Offer(Initiator)];
    var log := LogOf(m, offers);
    assert Turn(1) == Responder;
    LogFacts(m, offers);
    OfferAdmitted(m, offers);
    var w := log[1];
    hide LogOf, Refused, Delivery;
    assert log[..|log| - 1] + [w] == log;
    UnderwayIsDelivered(Answers(m, refusal), sys, Initiator, log[..|log| - 1], w);
  }

  /** Where the negotiation ends, if everything is disclosed: as locally, if it may start, both sides
      share their schedules, and whoever finds no common slot has no standing reason to ask its
      owner; and otherwise in no ending of any run. */
  ghost predicate Conforms(m: Meeting) {
    && MayStart(m) && m.responder.shares
    && (Common(m, Responder)
        || (Unreserved(m, Responder) && (Common(m, Initiator) || Unreserved(m, Initiator))))
  }

  lemma ExchangeEnds(m: Meeting, refusal: Handling, n: nat)
    requires n >= MAX_COUNTER_ROUNDS + 2 && !refusal.Normally?
    ensures Conforms(m) ==> Mirrors(Exchange(m, refusal, n), m, Arrange(m, MAX_COUNTER_ROUNDS))
    ensures !Conforms(m) ==> forall other, r :: !Mirrors(Exchange(m, refusal, n), other, r)
  {
    hide AtRound, Delivery, Mirrors, Common, Unreserved, Rounds, AskedAboutNothing, Undecided;
    assert Turn(1) == Responder && Turn(2) == Initiator && Turn(3) == Responder;
    var after := Exchange(m, refusal, n);
    if !MayStart(m) {
      Quiet(Answers(m, refusal), NOTHING, n);
      NothingStarted();
    } else {
      RequestDelivered(m, refusal);
      AfterRequest(m, refusal, n);
      if m.responder.shares {
        DeliveriesFollowRounds(Exchange(m, refusal, 1), m, refusal, [m.Offer(Initiator)], n - 1);
      } else {
        RefusalsStay(Exchange(m, refusal, 1), m, refusal, n - 1);
      }
    }
    forall other, r ensures !Conforms(m) ==> !Mirrors(after, other, r) {
      if Undecided(after) {
        UndecidedIsNoEnding(after, other, r);
      } else if AskedAboutNothing(after, Initiator) {
        NothingIsNoEnding(after, other, r, Initiator);
      } else if AskedAboutNothing(after, Responder) {
        NothingIsNoEnding(after, other, r, Responder);
      }
    }
  }

  lemma NothingStarted()
    ensures Undecided(NOTHING)
  {
  }

  // What the policies disclose

  function DisclosedBy(memories: seq<Scheduling.Memory>): seq<Scheduling.Memory> {
    if memories == [] then []
    else (if memories[0].disclosed then [memories[0]] else []) + DisclosedBy(memories[1..])
  }

  /** The same meeting, with the memories that each side's policy for the peer discloses. */
  function Disclosed(m: Meeting): Meeting {
    m.(initiator := m.initiator.(memories := DisclosedBy(m.initiator.memories)),
       responder := m.responder.(memories := DisclosedBy(m.responder.memories)))
  }

  /** The distributed negotiation after n deliveries. */
  function LossFree(m: Meeting, refusal: Handling, n: nat): System {
    Exchange(Disclosed(m), refusal, n)
  }

  /** Without the delegation, or with a schedule that is not shared, no node has a session. */
  lemma NothingWithoutStart(m: Meeting, refusal: Handling, n: nat)
    requires !MayStart(m)
    ensures LossFree(m, refusal, n) == NOTHING
  {
    Quiet(Answers(Disclosed(m), refusal), NOTHING, n);
  }

  /** Two runs leave the same sessions on both sides. */
  predicate SameEnding(m: Meeting, r: Run, other: Meeting, r': Run) {
    && !r.ending.LeftOpen? && !r'.ending.LeftOpen?
    && forall side: Side :: FinalSession(m, r, side) == FinalSession(other, r', side)
  }

  /** The two forms come to the same, on any number of deliveries that suffices, if and only if the
      remote one conforms to the local driver on what is disclosed, and the local driver comes to
      the same on what is disclosed and on everything. */
  lemma FormsAgreeExactly(m: Meeting, refusal: Handling, n: nat)
    requires n >= MAX_COUNTER_ROUNDS + 2 && !refusal.Normally?
    ensures Mirrors(LossFree(m, refusal, n), m, Arrange(m, MAX_COUNTER_ROUNDS)) <==>
              Conforms(Disclosed(m))
              && SameEnding(Disclosed(m), Arrange(Disclosed(m), MAX_COUNTER_ROUNDS), m, Arrange(m, MAX_COUNTER_ROUNDS))
  {
    hide Conforms, Exchange, Arrange, FinalSession, Disclosed;
    ExchangeEnds(Disclosed(m), refusal, n);
    var r, r' := Arrange(Disclosed(m), MAX_COUNTER_ROUNDS), Arrange(m, MAX_COUNTER_ROUNDS);
    if Mirrors(LossFree(m, refusal, n), m, r') && Conforms(Disclosed(m)) {
      forall side: Side ensures FinalSession(Disclosed(m), r, side) == FinalSession(m, r', side) {
        assert side == Initiator || side == Responder;
      }
    }
  }

  ghost predicate AllDisclosed(m: Meeting) {
    (forall x :: x in m.initiator.memories ==> x.disclosed) && forall x :: x in m.responder.memories ==> x.disclosed
  }

  lemma {:induction false} AllAreDisclosed(memories: seq<Scheduling.Memory>)
    requires forall x :: x in memories ==> x.disclosed
    ensures DisclosedBy(memories) == memories
  {
    if memories != [] {
      AllAreDisclosed(memories[1..]);
      assert memories == [memories[0]] + memories[1..];
    }
  }

  /** When everything is disclosed, the two forms come to the same if and only if the initiator's
      owner has delegated meetings, both share their schedules, and no owner is asked about nothing:
      whoever finds no common slot has no reason to ask that does not depend on one. */
  lemma FormsAgreeWhenDisclosed(m: Meeting, refusal: Handling, n: nat)
    requires n >= MAX_COUNTER_ROUNDS + 2 && !refusal.Normally? && AllDisclosed(m)
    ensures Mirrors(LossFree(m, refusal, n), m, Arrange(m, MAX_COUNTER_ROUNDS)) <==>
              && m.initiator.owner.delegated && m.initiator.shares && m.responder.shares
              && (Common(m, Responder)
                  || (Unreserved(m, Responder) && (Common(m, Initiator) || Unreserved(m, Initiator))))
  {
    AllAreDisclosed(m.initiator.memories);
    AllAreDisclosed(m.responder.memories);
    assert Disclosed(m) == m;
    ExchangeEnds(m, refusal, n);
    hide Mirrors, Common, Unreserved, Exchange, Arrange;
  }

  /** An owner is asked about nothing unless meetings are delegated to a confident clone, nothing
      is reserved, and no preferred range counts: a single one is enough to make the forms differ
      whenever there is no common slot. */
  lemma UnreservedExactly(m: Meeting, side: Side)
    ensures var o := m.Party(side).owner;
            Unreserved(m, side) <==>
              && o.delegated && o.confidence >= CONFIDENCE_THRESHOLD
              && o.autoAccept != Some(false) && o.allowsPeer != Some(false)
              && forall r :: r in o.preferred ==> r.start >= r.end
  {
    var preferred := m.Party(side).owner.preferred;
    ValidRangesAreExact(preferred);
    var valid := ValidRanges(preferred);
    if valid != [] {
      assert valid[0] in valid;
    }
    hide ValidRanges;
  }
}
