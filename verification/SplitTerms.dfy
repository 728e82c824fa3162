/** Where the agreed share of a remote split comes from, whatever the Relay does and whatever the
    owners' rules and decisions are. */
module SplitTerms {
  import opened Types
  import opened Money
  import opened CostSplitStrategy
  import opened ProtocolState
  import opened RemoteNegotiation
  import opened RemoteBounds
  import opened TwoNodes
  import opened LossFreeRelay
  import opened RemoteCostSplit
  import CostSplit
  import RemoteCostSplitLimits

  /** Everything that a domain's reply depends on, besides the offer it answers. */
  datatype Circumstances = Circumstances(
    profile: Profile, role: Side, limit: nat, total: real, asked: real,
    ownLast: Option<Delta>, round: nat, guard: Option<Reason>, highValue: bool
  ) {
    function Reply(received: Delta): Reply {
      DecideRemoteReply(profile, role, limit, total, asked, received, ownLast, round, guard, highValue)
    }
  }

  /** A reply of the domain to this offer, for some profile, rules and history. */
  ghost predicate Computed(reply: Reply, received: Delta) {
    exists c: Circumstances :: reply == c.Reply(received)
  }

  ghost predicate Guided(step: Step) {
    match step
    case StartNegotiation(request, proposed) => request.CostSplitRequest? && proposed.Proposed?
    case Deliver(_, w, handling) => handling.Normally? ==> Computed(handling.reply, w.delta)
    case _ => true
  }

  ghost predicate GuidedRun(steps: seq<Step>) {
    forall step :: step in steps ==> Guided(step)
  }

  /** This side's owner has approved with this share instead of the proposed one. */
  predicate Overridden(steps: seq<Step>, side: Side, share: int) {
    Decide(side, ApproveIt, Some(AgreedShare(share))) in steps
  }

  /** The share of the offer at a place. */
  predicate Offers(log: seq<Wire>, i: int) {
    0 <= i < |log| && log[i].delta.Proposed?
  }

  /** What stands at a place, when its sender has put it there: a request for a split, an offer of a
      share, or the acceptance of the offer before it, unless the owner has overridden that. */
  ghost predicate Grounded(steps: seq<Step>, log: seq<Wire>, i: nat)
    requires i < |log|
  {
    match log[i].kind
    case REQUEST => log[i].request.Some? && log[i].request.value.CostSplitRequest?
    case PROPOSE => log[i].delta.Proposed?
    case COUNTER => log[i].delta.Proposed?
    case ACCEPT =>
      && Offers(log, i - 1) && log[i].delta.Terms? && log[i].delta.payload.AgreedShare?
      && var share := log[i].delta.payload.share;
         share == Round(log[i - 1].delta.share) || Overridden(steps, log[i].sender, share)
    case _ => true
  }

  ghost predicate OwnWords(steps: seq<Step>, side: Side, log: seq<Wire>) {
    forall i :: 0 <= i < |log| && log[i].sender == side ==> Grounded(steps, log, i)
  }

  /** The owner is asked about the offer that stands. */
  ghost predicate AsksStanding(s: Session) {
    s.status == WaitingApproval && s.pending.Some? ==>
      && Offers(s.log, |s.log| - 1) && s.pending.value.proposal.CostProposal?
      && s.pending.value.proposal.share == Round(s.log[|s.log| - 1].delta.share)
  }

  ghost predicate SplitNode(steps: seq<Step>, side: Side, s: Session) {
    s.role == side && OwnWords(steps, side, s.log) && AsksStanding(s)
  }

  ghost predicate SplitSystem(steps: seq<Step>, sys: System) {
    && (sys.initiator.Some? ==> SplitNode(steps, Initiator, sys.initiator.value))
    && (sys.responder.Some? ==> SplitNode(steps, Responder, sys.responder.value))
  }

  lemma OwnWordsLast(steps: seq<Step>, more: seq<Step>, side: Side, log: seq<Wire>)
    requires OwnWords(steps, side, log) && forall step :: step in steps ==> step in more
    ensures OwnWords(more, side, log)
  {
    hide Round;
    forall i | 0 <= i < |log| && log[i].sender == side ensures Grounded(more, log, i) {
      assert Grounded(steps, log, i);
    }
  }

  lemma OwnWordsGrow(steps: seq<Step>, side: Side, log: seq<Wire>, w: Wire)
    requires OwnWords(steps, side, log) && (w.sender == side ==> Grounded(steps, log + [w], |log|))
    ensures OwnWords(steps, side, log + [w])
  {
    hide Round;
    forall i | 0 <= i < |log + [w]| && (log + [w])[i].sender == side ensures Grounded(steps, log + [w], i) {
      assert i < |log| ==> Grounded(steps, log, i);
    }
  }

  /** What a domain may say to an offer of a share: it accepts that share, asks its owner about that
      share, or names another. */
  predicate AboutStanding(reply: Reply, share: real) {
    match reply
    case AskOwner(_, ask) => ask == AskShare(Round(share))
    case AutoAccept(payload) => payload == AgreedShare(Round(share))
    case CounterOffer(delta) => delta.Proposed?
    case Decline(_) => true
  }

  lemma DecidesAboutStanding(c: Circumstances, received: Delta)
    requires received.Proposed?
    ensures AboutStanding(c.Reply(received), received.share)
  {
    hide Round, NextAction;
    var mine := if c.ownLast.Some? && c.ownLast.value.Proposed? then Some(c.ownLast.value.share) else None;
    AcceptsStanding(c.profile, c.role, c.total, c.asked, Offer(Round(received.share), mine), c.highValue);
  }

  lemma ComputedAboutStanding(reply: Reply, received: Delta)
    requires Computed(reply, received) && received.Proposed?
    ensures AboutStanding(reply, received.share)
  {
    hide Circumstances.Reply, AboutStanding;
    var c: Circumstances :| reply == c.Reply(received);
    DecidesAboutStanding(c, received);
  }

  lemma AcceptsStanding(p: Profile, role: Side, total: real, asked: real, o: Offer, highValue: bool)
    ensures var action := NextAction(p, role, total, asked, o, highValue);
            action.Accept? ==> action.amount == o.standing
  {
    hide Round, Concede, Portion;
  }

  lemma ReactsGrounded(steps: seq<Step>, s: Session, reply: Reply)
    requires SplitNode(steps, s.role, s) && s.status == Open && s.log != []
    requires var last := s.log[|s.log| - 1];
             last.delta.Proposed? && Computed(reply, last.delta)
    ensures SplitNode(steps, s.role, React(s, reply))
  {
    ComputedAboutStanding(reply, s.log[|s.log| - 1].delta);
    hide Round, Computed, CounterRounds, RequestPayload, AcceptedByReply, OwnWords;
    match reply
    case AskOwner(_, _) =>
    case AutoAccept(payload) => SaysGrounded(steps, s, ACCEPT, Terms(payload));
    case Decline(reason) => SaysGrounded(steps, s, REJECT, Coded(Because(reason)));
    case CounterOffer(delta) =>
      SaysGrounded(steps, s, COUNTER, delta);
      SaysGrounded(steps, s, ERROR, Coded(ExhaustedCode(RequestPayload(s.log))));
  }

  lemma SaysGrounded(steps: seq<Step>, s: Session, kind: MessageType, delta: Delta)
    requires OwnWords(steps, s.role, s.log)
    requires Grounded(steps, s.log + [Wire(s.role, s.lastSequence + 1, kind, None, delta)], |s.log|)
    ensures OwnWords(steps, s.role, Say(s, kind, delta).log)
  {
    OwnWordsGrow(steps, s.role, s.log, Wire(s.role, s.lastSequence + 1, kind, None, delta));
  }

  lemma HearsGrounded(steps: seq<Step>, s: Session, w: Wire, handling: Handling)
    requires SplitNode(steps, s.role, s) && SessionInv(s) && Refused(Some(s), w).None?
    requires w.sender == s.role.Other() && (w.kind in {PROPOSE, COUNTER} ==> w.delta.Proposed?)
    requires handling.Normally? ==> Computed(handling.reply, w.delta)
    ensures SplitNode(steps, s.role, Process(s, w, handling))
  {
    hide Round, Computed, CounterRounds, RequestPayload, AcceptedByPeer, OwnWords, React, Grounded, Orderly, AsksAbout,
         LastKind;
    OwnWordsGrow(steps, s.role, s.log, w);
    if w.kind in {PROPOSE, COUNTER} && handling.Normally? {
      assert s.status == Open;
      ReactsGrounded(steps, Record(s, w), handling.reply);
    }
  }

  lemma ReceivesGrounded(steps: seq<Step>, node: Option<Session>, side: Side, w: Wire, handling: Handling)
    requires node.Some? ==> SplitNode(steps, side, node.value) && SessionInv(node.value)
    requires w.sender == side.Other() && (w.kind in {PROPOSE, COUNTER} ==> w.delta.Proposed?)
    requires handling.Normally? ==> Computed(handling.reply, w.delta)
    ensures var after := Receive(node, w, handling);
            after.Some? ==> SplitNode(steps, side, after.value)
  {
    hide Process, Computed, Grounded, SessionInv, Refused;
    if node.Some? && Refused(node, w).None? {
      HearsGrounded(steps, node.value, w, handling);
    }
  }

  lemma ResolvesGrounded(steps: seq<Step>, s: Session, resolution: Resolution, override: Option<Payload>)
    requires SplitNode(steps, s.role, s) && Decide(s.role, resolution, override) in steps
    ensures SplitNode(steps, s.role, Resolve(s, resolution, override))
  {
    hide Round, AgreementByOwner, OwnWords;
    if s.status == WaitingApproval && s.pending.Some? {
      match ApprovalReply(s.pending.value.proposal, resolution, override)
      case None =>
      case Some((kind, delta)) =>
        SaysGrounded(steps, s, kind, delta);
    }
  }

  lemma StartsGrounded(steps: seq<Step>, request: Request, proposed: Delta)
    requires request.CostSplitRequest? && proposed.Proposed?
    ensures SplitNode(steps, Initiator, Start(request, proposed))
  {
    hide Round;
  }

  /** What a node hears, its peer has said. */
  lemma HeardIsGrounded(steps: seq<Step>, sys: System, w: Wire)
    requires SplitSystem(steps, sys) && SystemInv(sys) && w in sys.relay && w.kind in {PROPOSE, COUNTER}
    ensures w.delta.Proposed?
  {
    hide Round, SessionInv;
    assert Sent(w, sys.Log(w.sender));
    assert OwnWords(steps, w.sender, sys.Log(w.sender));
    assert Grounded(steps, sys.Log(w.sender), w.sequence - 1);
  }

  lemma NextIsGrounded(steps: seq<Step>, sys: System, step: Step)
    requires SplitSystem(steps, sys) && SystemInv(sys) && Guided(step) && step in steps
    ensures SplitSystem(steps, Next(sys, step))
  {
    hide Receive, Resolve, Computed, OwnWords, AsksStanding, SessionInv;
    assert NodeInv(sys, Initiator) && NodeInv(sys, Responder);
    match step
    case StartNegotiation(request, proposed) => StartsGrounded(steps, request, proposed);
    case Flush(side, index) =>
    case Deliver(receiver, w, handling) =>
      if w in sys.relay && w.sender == receiver.Other() {
        if w.kind in {PROPOSE, COUNTER} {
          HeardIsGrounded(steps, sys, w);
        }
        ReceivesGrounded(steps, sys.Node(receiver), receiver, w, handling);
      }
    case Decide(side, resolution, override) =>
      if sys.Node(side).Some? {
        ResolvesGrounded(steps, sys.Node(side).value, resolution, override);
      }
  }

  lemma SplitSystemLasts(steps: seq<Step>, more: seq<Step>, sys: System)
    requires SplitSystem(steps, sys) && forall step :: step in steps ==> step in more
    ensures SplitSystem(more, sys)
  {
    hide OwnWords, AsksStanding;
    if sys.initiator.Some? {
      OwnWordsLast(steps, more, Initiator, sys.initiator.value.log);
    }
    if sys.responder.Some? {
      OwnWordsLast(steps, more, Responder, sys.responder.value.log);
    }
  }

  lemma {:induction false} EveryGuidedRunIsGrounded(steps: seq<Step>)
    requires GuidedRun(steps)
    ensures SplitSystem(steps, Execute(steps))
  {
    hide Next, Guided, SplitNode, SystemInv;
    if steps != [] {
      var before := steps[..|steps| - 1];
      EveryGuidedRunIsGrounded(before);
      EveryRunKeepsInv(before);
      SplitSystemLasts(before, steps, Execute(before));
      NextIsGrounded(steps, Execute(before), steps[|steps| - 1]);
    }
  }

  /** An agreed split: its acceptance is the last message, and answers an offer. */
  ghost predicate Justified(steps: seq<Step>, s: Session) {
    var log, n := s.log, |s.log| - 1;
    && n >= 1 && log[n].kind == ACCEPT && log[n - 1].kind in {PROPOSE, COUNTER} && Offers(log, n - 1)
    && s.agreement.Some? && s.agreement.value.CostAgreement?
    && (s.agreement.value.share == Round(log[n - 1].delta.share)
        || Overridden(steps, log[n].sender, s.agreement.value.share))
  }

  lemma GroundedAt(steps: seq<Step>, sys: System, side: Side, i: nat)
    requires SplitSystem(steps, sys) && SystemInv(sys) && i < |sys.Log(side)|
    ensures Grounded(steps, sys.Log(side), i)
  {
    hide Round, SessionInv, Grounded;
    var log := sys.Log(side);
    assert OwnWords(steps, side, log);
    if log[i].sender != side {
      var theirs := sys.Log(side.Other());
      assert HeardFrom(log, side.Other(), theirs) && theirs[i] == log[i];
      assert OwnWords(steps, side.Other(), theirs);
      LogsComparable(sys);
      GroundedInBoth(steps, theirs, log, i);
    }
  }

  lemma GroundedInBoth(steps: seq<Step>, a: seq<Wire>, b: seq<Wire>, i: nat)
    requires (a <= b || b <= a) && i < |a| && i < |b| && Grounded(steps, a, i)
    ensures Grounded(steps, b, i)
  {
    hide Round;
  }

  lemma AgreedIsJustified(steps: seq<Step>, s: Session)
    requires SessionInv(s) && s.agreement.Some? && forall i :: 0 <= i < |s.log| ==> Grounded(steps, s.log, i)
    ensures Justified(steps, s)
  {
    hide Round, CounterRounds, AsksAbout;
    var n := |s.log| - 1;
    assert InPlace(s.log, 0) && InPlace(s.log, n) && Grounded(steps, s.log, 0) && Grounded(steps, s.log, n);
    if n >= 1 {
      assert InPlace(s.log, n - 1);
    }
  }

  /** In every run, whatever the Relay loses, duplicates or reorders, and whatever rules and decisions
      the owners take: the share that a node has agreed on is the offer that stood, in whole cents,
      unless the owner of the side that accepted has overridden it. */
  lemma AgreedShareStood(steps: seq<Step>, side: Side)
    requires GuidedRun(steps)
    ensures var node := Execute(steps).Node(side);
            node.Some? && node.value.agreement.Some? ==> Justified(steps, node.value)
  {
    var sys := Execute(steps);
    EveryGuidedRunIsGrounded(steps);
    EveryRunKeepsInv(steps);
    if sys.Node(side).Some? && sys.Node(side).value.agreement.Some? {
      hide Grounded, SplitSystem, Justified, Execute;
      assert NodeInv(sys, side);
      hide SessionInv;
      forall i | 0 <= i < |sys.Log(side)| ensures Grounded(steps, sys.Log(side), i) {
        GroundedAt(steps, sys, side, i);
      }
      AgreedIsJustified(steps, sys.Node(side).value);
    }
  }

  // What an override does

  /** The responder's owner has been asked in round 1 and approves another share. */
  function OverriddenAtOnce(d: CostSplit.Deal, limit: nat, share: int): System {
    Next(LossFree(d, limit, 2), Decide(Responder, ApproveIt, Some(AgreedShare(share))))
  }

  lemma AskedInRoundOne(d: CostSplit.Deal, limit: nat)
    requires d.delegatedAtStart && limit >= 1 && 1 in d.guards
    ensures var log := LogOf(d, []);
            && LossFree(d, limit, 2).initiator == Some(OpenSession(Initiator, log))
            && LossFree(d, limit, 2).responder
               == Some(Session(Responder, log, |log|, WaitingApproval,
                               Some(Question(d.guards[1], CostProposal(ContextOf(d), d.Ask()))), None))
  {
    hide CostSplit.Move, Round, LogOf, LossFree, ReplyTo, CounterRounds, Delivery;
    RequestDelivered(d, limit);
    OfferDelivered(LossFree(d, limit, 1), d, limit, []);
    ReplyIsMove(d, limit, []);
    LogFacts(d, []);
    RemoteCostSplitLimits.OneMore(d, limit, 1);
  }

  lemma OverrideSaid(d: CostSplit.Deal, share: int, reason: Reason, proposed: int)
    ensures var log := LogOf(d, []);
            var asked := Session(Responder, log, |log|, WaitingApproval,
                                 Some(Question(reason, CostProposal(ContextOf(d), proposed))), None);
            Resolve(asked, ApproveIt, Some(AgreedShare(share)))
            == FinalSession(d, CostSplit.Run([], CostSplit.Agreement(Responder, share)), Responder)
  {
    hide LogOf;
  }

  /** An override binds the peer: whatever share the owner names, below the initiator's floor or above
      the total, the next delivery makes it the agreement of both, and asks neither the initiator's
      profile nor its owner. */
  lemma OverrideBinds(d: CostSplit.Deal, limit: nat, share: int)
    requires d.delegatedAtStart && limit >= 1 && 1 in d.guards
    ensures Mirrors(Delivery(RemoteCostSplit.Answers(d, limit), OverriddenAtOnce(d, limit, share)), d,
                    CostSplit.Run([], CostSplit.Agreement(Responder, share)))
  {
    hide LogOf, LossFree, FinalSession, Resolve, Delivery, Mirrors;
    var r := CostSplit.Run([], CostSplit.Agreement(Responder, share));
    AskedInRoundOne(d, limit);
    OverrideSaid(d, share, d.guards[1], d.Ask());
    assert CostSplit.Turn(1) == Responder;
    LastWordHeard(OverriddenAtOnce(d, limit, share), d, limit, r);
  }
}
