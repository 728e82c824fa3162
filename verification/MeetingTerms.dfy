/** Where the agreed slot of a remote meeting comes from, whatever the Relay does and whatever the
    owners' rules and decisions are. */
module MeetingTerms {
  import opened Types
  import Scheduling
  import opened MeetingSchedule
  import opened ProtocolState
  import opened RemoteNegotiation
  import opened RemoteBounds
  import opened TwoNodes
  import opened LossFreeRelay
  import opened RemoteMeeting

  /** The nodes look for slots in the calendars of `m`; the rules that decide about them may be any,
      and change from step to step. */
  ghost predicate Guided(m: Meeting, step: Step) {
    match step
    case StartNegotiation(request, proposed) =>
      request == RequestOf(m) && proposed == RemoteNegotiation.Candidates(m.Offer(Initiator))
    case Deliver(receiver, w, handling) =>
      handling.Normally? ==> exists p :: handling.reply == DecideRemoteReply(p, m.Slots(receiver), w.delta)
    case _ => true
  }

  ghost predicate GuidedRun(m: Meeting, steps: seq<Step>) {
    forall step :: step in steps ==> Guided(m, step)
  }

  /** A slot that is free, and inside the requested window, on both sides. */
  ghost predicate Fits(m: Meeting, slot: Slot) {
    forall side: Side :: m.Search(side).Free(slot) && m.Search(side).Allows(slot)
  }

  ghost predicate Listed(m: Meeting, side: Side, slots: seq<Slot>) {
    forall x :: x in slots ==> x in m.Slots(side)
  }

  /** A side offers slots of its own list, and accepts slots that suit both. */
  ghost predicate FairWire(m: Meeting, w: Wire) {
    match w.kind
    case REQUEST => w.request.Some? && w.request.value.MeetingRequest?
    case PROPOSE => w.delta.Candidates? && Listed(m, w.sender, w.delta.slots)
    case COUNTER => w.delta.Candidates? && Listed(m, w.sender, w.delta.slots)
    case ACCEPT => w.delta.Terms? && w.delta.payload.AgreedSlot? && Fits(m, w.delta.payload.slot)
    case _ => true
  }

  ghost predicate FairProposal(m: Meeting, side: Side, proposal: Proposal) {
    && proposal.MeetingProposal? && Listed(m, side, proposal.candidates)
    && (proposal.selected.Some? ==> Fits(m, proposal.selected.value))
  }

  ghost predicate FairNode(m: Meeting, side: Side, s: Session) {
    && s.role == side && (forall w :: w in s.log ==> FairWire(m, w))
    && (s.pending.Some? ==> FairProposal(m, side, s.pending.value.proposal))
  }

  ghost predicate FairSystem(m: Meeting, sys: System) {
    && (sys.initiator.Some? ==> FairNode(m, Initiator, sys.initiator.value))
    && (sys.responder.Some? ==> FairNode(m, Responder, sys.responder.value))
    && forall w :: w in sys.relay ==> FairWire(m, w)
  }

  /** Common slots suit both sides. */
  lemma CommonFits(m: Meeting, receiver: Side, offered: seq<Slot>, slot: Slot)
    requires Listed(m, receiver.Other(), offered) && slot in Scheduling.Intersect(m.Slots(receiver), offered)
    ensures Fits(m, slot)
  {
    hide Scheduling.Candidates, Scheduling.Search.Free, Scheduling.Search.Allows;
    var sender := receiver.Other();
    Scheduling.IntersectIsExact(m.Slots(receiver), offered);
    Scheduling.CandidatesFit(m.Search(receiver), slot);
    var i :| 0 <= i < |offered| && Scheduling.SameSlot(slot, offered[i]);
    assert offered[i] in m.Slots(sender);
    Scheduling.CandidatesFit(m.Search(sender), offered[i]);
    SameSlotFits(m.Search(sender), slot, offered[i]);
    forall side: Side ensures m.Search(side).Free(slot) && m.Search(side).Allows(slot) {
      assert side == receiver || side == sender;
    }
  }

  /** What a domain replies to a fair offer. */
  ghost predicate FairReply(m: Meeting, side: Side, reply: Reply) {
    match reply
    case AskOwner(_, ask) =>
      ask.AskSlot? && Listed(m, side, ask.candidates) && (ask.selected.Some? ==> Fits(m, ask.selected.value))
    case AutoAccept(payload) => payload.AgreedSlot? && Fits(m, payload.slot)
    case CounterOffer(delta) => delta.Candidates? && Listed(m, side, delta.slots)
    case Decline(_) => true
  }

  lemma RepliesFairly(m: Meeting, side: Side, p: Party, received: Delta)
    requires received.Candidates? && Listed(m, side.Other(), received.slots)
    ensures FairReply(m, side, DecideRemoteReply(p, m.Slots(side), received))
  {
    hide Scheduling.Candidates, Scheduling.Intersect, Fits, Evaluate;
    var common := Scheduling.Intersect(m.Slots(side), received.slots);
    if common != [] {
      CommonFits(m, side, received.slots, common[0]);
    }
    EvaluatesWithinReach(p.owner, if common != [] then Some(common[0]) else None, p.offset);
  }

  lemma EvaluatesWithinReach(o: Owner, selected: Option<Slot>, offset: int)
    ensures Evaluate(o, selected, offset) == AcceptIt ==> selected.Some?
  {
    hide Reasons;
  }

  lemma SaysFairly(m: Meeting, s: Session, kind: MessageType, delta: Delta)
    requires FairNode(m, s.role, s) && FairWire(m, Wire(s.role, s.lastSequence + 1, kind, None, delta))
    ensures FairNode(m, s.role, Say(s, kind, delta))
  {
    hide FairWire, FairProposal;
  }

  lemma ReactsFairly(m: Meeting, s: Session, reply: Reply)
    requires FairNode(m, s.role, s) && FairReply(m, s.role, reply)
    ensures FairNode(m, s.role, React(s, reply))
  {
    hide CounterRounds, RequestPayload, AcceptedByReply, Fits, Listed;
    match reply
    case AskOwner(_, _) =>
    case AutoAccept(payload) => SaysFairly(m, s, ACCEPT, Terms(payload));
    case Decline(reason) => SaysFairly(m, s, REJECT, Coded(Because(reason)));
    case CounterOffer(delta) =>
      SaysFairly(m, s, COUNTER, delta);
      SaysFairly(m, s, ERROR, Coded(ExhaustedCode(RequestPayload(s.log))));
  }

  lemma HearsFairly(m: Meeting, s: Session, w: Wire, handling: Handling)
    requires FairNode(m, s.role, s) && FairWire(m, w) && w.sequence >= 0 && w.sender == s.role.Other()
    requires handling.Normally? ==> exists p :: handling.reply == DecideRemoteReply(p, m.Slots(s.role), w.delta)
    ensures FairNode(m, s.role, Process(s, w, handling))
  {
    hide React, DecideRemoteReply, AcceptedByPeer, Fits, Listed, FairReply, FairProposal;
    var recorded := Record(s, w);
    assert FairNode(m, s.role, recorded);
    if w.kind in {PROPOSE, COUNTER} && handling.Normally? {
      var p :| handling.reply == DecideRemoteReply(p, m.Slots(s.role), w.delta);
      RepliesFairly(m, s.role, p, w.delta);
      ReactsFairly(m, recorded, handling.reply);
    }
  }

  lemma ReceivesFairly(m: Meeting, node: Option<Session>, side: Side, w: Wire, handling: Handling)
    requires node.Some? ==> FairNode(m, side, node.value)
    requires FairWire(m, w) && w.sender == side.Other()
    requires handling.Normally? ==> exists p :: handling.reply == DecideRemoteReply(p, m.Slots(side), w.delta)
    ensures var after := Receive(node, w, handling);
            after.Some? ==> FairNode(m, side, after.value)
  {
    hide Process, DecideRemoteReply, FairWire, FairProposal;
    if node.Some? && Refused(node, w).None? {
      HearsFairly(m, node.value, w, handling);
    }
  }

  lemma ResolvesFairly(m: Meeting, s: Session, resolution: Resolution, override: Option<Payload>)
    requires FairNode(m, s.role, s)
    ensures FairNode(m, s.role, Resolve(s, resolution, override))
  {
    hide AgreementByOwner, Fits, Listed;
    if s.status == WaitingApproval && s.pending.Some? {
      match ApprovalReply(s.pending.value.proposal, resolution, override)
      case None =>
      case Some((kind, delta)) =>
        OwnersReplyFairly(m, s.role, s.pending.value.proposal, resolution, override);
        hide ApprovalReply;
        SaysFairly(m, s, kind, delta);
    }
  }

  lemma OwnersReplyFairly(m: Meeting, side: Side, proposal: Proposal, resolution: Resolution, override: Option<Payload>)
    requires FairProposal(m, side, proposal)
    ensures var reply := ApprovalReply(proposal, resolution, override);
            reply.Some? ==> forall n :: FairWire(m, Wire(side, n, reply.value.0, None, reply.value.1))
  {
    hide Fits;
  }

  lemma StartsFairly(m: Meeting)
    ensures FairNode(m, Initiator, Start(RequestOf(m), RemoteNegotiation.Candidates(m.Offer(Initiator))))
  {
    hide Scheduling.Candidates;
  }

  lemma NextIsFair(m: Meeting, sys: System, step: Step)
    requires FairSystem(m, sys) && Guided(m, step)
    ensures FairSystem(m, Next(sys, step))
  {
    hide Receive, Resolve, FairWire, FairProposal, DecideRemoteReply;
    match step
    case StartNegotiation(_, _) => StartsFairly(m);
    case Flush(side, index) =>
    case Deliver(receiver, w, handling) =>
      if w in sys.relay && w.sender == receiver.Other() {
        ReceivesFairly(m, sys.Node(receiver), receiver, w, handling);
      }
    case Decide(side, resolution, override) =>
      if sys.Node(side).Some? {
        ResolvesFairly(m, sys.Node(side).value, resolution, override);
      }
  }

  lemma {:induction false} EveryGuidedRunIsFair(m: Meeting, steps: seq<Step>)
    requires GuidedRun(m, steps)
    ensures FairSystem(m, Execute(steps))
  {
    hide Next, Guided, FairNode, FairWire;
    if steps != [] {
      var before := steps[..|steps| - 1];
      EveryGuidedRunIsFair(m, before);
      NextIsFair(m, Execute(before), steps[|steps| - 1]);
    }
  }

  /** What a fair session has agreed on. */
  lemma FairAgreement(m: Meeting, side: Side, s: Session)
    requires SessionInv(s) && FairNode(m, side, s) && s.agreement.Some?
    ensures s.agreement.value.MeetingAgreement? && s.agreement.value.slot.Some?
    ensures Fits(m, s.agreement.value.slot.value)
  {
    hide CounterRounds, AsksAbout, Fits, Listed, FairProposal;
    var first, last := s.log[0], s.log[|s.log| - 1];
    assert InPlace(s.log, 0);
    assert FairWire(m, first) && FairWire(m, last);
  }

  /** In every run, whatever the Relay loses, duplicates or reorders, and whatever rules and decisions
      the owners take: a slot that either node has agreed on is free in both calendars, and inside
      the requested window on both clocks. */
  lemma AgreedSlotFits(m: Meeting, steps: seq<Step>, side: Side)
    requires GuidedRun(m, steps)
    ensures var node := Execute(steps).Node(side);
            node.Some? && node.value.agreement.Some? ==>
              && node.value.agreement.value.MeetingAgreement? && node.value.agreement.value.slot.Some?
              && Fits(m, node.value.agreement.value.slot.value)
  {
    EveryGuidedRunIsFair(m, steps);
    EveryRunKeepsInv(steps);
    hide FairNode, SessionInv, Fits;
    assert NodeInv(Execute(steps), side);
    if Execute(steps).Node(side).Some? && Execute(steps).Node(side).value.agreement.Some? {
      FairAgreement(m, side, Execute(steps).Node(side).value);
    }
  }

  // The loss-free runs are among them

  ghost predicate GuidedTo(m: Meeting, sys: System) {
    exists steps :: GuidedRun(m, steps) && Execute(steps) == sys
  }

  lemma GuidedNext(m: Meeting, sys: System, step: Step)
    requires GuidedTo(m, sys) && Guided(m, step)
    ensures GuidedTo(m, Next(sys, step)) && SystemInv(sys)
  {
    hide Next, Guided, SystemInv;
    var steps :| GuidedRun(m, steps) && Execute(steps) == sys;
    EveryRunKeepsInv(steps);
    assert (steps + [step])[..|steps|] == steps;
    assert Execute(steps + [step]) == Next(sys, step);
    assert GuidedRun(m, steps + [step]);
  }

  lemma GuidedFromNothing(m: Meeting)
    ensures GuidedTo(m, NOTHING)
  {
    assert Execute([]) == NOTHING && GuidedRun(m, []);
  }

  lemma HandoverIsGuided(m: Meeting, refusal: Handling, sys: System, sender: Side, index: nat)
    requires GuidedTo(m, sys) && index < |sys.Log(sender)| && !refusal.Normally?
    ensures GuidedTo(m, Handover(Answers(m, refusal), sys, sender, index))
  {
    hide SystemInv, GuidedTo, Scheduling.Candidates, DecideRemoteReply;
    var w := sys.Log(sender)[index];
    var flushed := Next(sys, Flush(sender, index));
    GuidedNext(m, sys, Flush(sender, index));
    RoleOfNode(sys, sender.Other());
    GuidedNext(m, flushed, Deliver(sender.Other(), w, HandlingOf(Answers(m, refusal), sys.Node(sender.Other()), w)));
  }

  lemma RoleOfNode(sys: System, side: Side)
    requires SystemInv(sys)
    ensures sys.Node(side).Some? ==> sys.Node(side).value.role == side
  {
    assert NodeInv(sys, side);
    hide SessionInv;
  }

  lemma {:induction false} DeliveriesAreGuided(m: Meeting, refusal: Handling, sys: System, n: nat)
    requires GuidedTo(m, sys) && !refusal.Normally?
    ensures GuidedTo(m, Deliveries(Answers(m, refusal), sys, n))
    decreases n
  {
    hide GuidedTo, Handover;
    if n > 0 {
      var a, b := |sys.Log(Initiator)|, |sys.Log(Responder)|;
      if a > b {
        HandoverIsGuided(m, refusal, sys, Initiator, b);
      } else if b > a {
        HandoverIsGuided(m, refusal, sys, Responder, a);
      }
      DeliveriesAreGuided(m, refusal, Delivery(Answers(m, refusal), sys), n - 1);
    }
  }

  lemma ExchangeIsGuided(m: Meeting, refusal: Handling, n: nat)
    requires !refusal.Normally?
    ensures GuidedTo(m, Exchange(m, refusal, n))
  {
    hide GuidedTo, Next, Delivery, Scheduling.Candidates;
    GuidedFromNothing(m);
    GuidedNext(m, NOTHING, StartNegotiation(RequestOf(m), RemoteNegotiation.Candidates(m.Offer(Initiator))));
    DeliveriesAreGuided(m, refusal, Started(m), n);
  }
}
