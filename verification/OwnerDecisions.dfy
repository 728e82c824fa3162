/** What an owner's decision says to the peer, what the peer makes of it, and what an agreement is
    about. */
module OwnerDecisions {
  import opened Types
  import opened ProtocolState
  import opened RemoteNegotiation
  import opened RemoteBounds
  import Scheduling
  import MeetingSchedule
  import RemoteMeeting

  /** The question is gone, and one message has been logged and sent. */
  predicate Says(s: Session, t: Session, kind: MessageType, delta: Delta) {
    && t.log == s.log + [Wire(s.role, s.lastSequence + 1, kind, None, delta)]
    && t.lastSequence == s.lastSequence + 1 && t.pending.None? && t.role == s.role
  }

  /** A refusal is told apart from a decision that never came. */
  lemma OwnerDeclines(s: Session, resolution: Resolution, override: Option<Payload>)
    requires s.status == WaitingApproval && s.pending.Some? && resolution != ApproveIt
    ensures var t := Resolve(s, resolution, override);
            && t.status == Failed
            && (resolution == RejectIt ==> Says(s, t, REJECT, Coded(HumanRejected)))
            && (resolution == ExpireIt ==> Says(s, t, REJECT, Coded(ApprovalExpired)))
  {
  }

  /** An approved split accepts the share that was proposed, or the one that replaces it; a slot
      cannot replace a share. */
  lemma OwnerAcceptsShare(s: Session, override: Option<Payload>)
    requires s.status == WaitingApproval && s.pending.Some? && s.pending.value.proposal.CostProposal?
    ensures var t := Resolve(s, ApproveIt, override);
            match override
            case None =>
              t.status == Agreed && Says(s, t, ACCEPT, Terms(AgreedShare(s.pending.value.proposal.share)))
            case Some(AgreedShare(share)) => t.status == Agreed && Says(s, t, ACCEPT, Terms(AgreedShare(share)))
            case Some(AgreedSlot(_)) => t == s
  {
  }

  /** An approved meeting accepts the selected slot, or offers what its owner has picked from the
      list instead: that slot and no other. Without any slot to accept it offers the first five. */
  lemma OwnerAnswersSlots(s: Session, override: Option<Payload>)
    requires s.status == WaitingApproval && s.pending.Some? && s.pending.value.proposal.MeetingProposal?
    ensures var t := Resolve(s, ApproveIt, override);
            var selected, list := s.pending.value.proposal.selected, s.pending.value.proposal.candidates;
            match override
            case None =>
              if selected.Some? then t.status == Agreed && Says(s, t, ACCEPT, Terms(AgreedSlot(selected.value)))
              else t.status == Open
                   && Says(s, t, COUNTER, RemoteNegotiation.Candidates(if |list| <= 5 then list else list[..5]))
            case Some(AgreedSlot(slot)) =>
              if slot !in list then t == s
              else if selected == Some(slot) then t.status == Agreed && Says(s, t, ACCEPT, Terms(AgreedSlot(slot)))
              else t.status == Open && Says(s, t, COUNTER, RemoteNegotiation.Candidates([slot]))
            case Some(AgreedShare(_)) => t == s
  {
  }

  /** The same instants. */
  predicate AtTheSameTime(a: Slot, b: Slot) {
    a.start == b.start && a.end == b.end
  }

  /** What a domain can make of an offer of one slot: nothing that is about another time. */
  lemma ReplyToOneSlot(p: MeetingSchedule.Party, own: seq<Slot>, slot: Slot)
    ensures match RemoteMeeting.DecideRemoteReply(p, own, RemoteNegotiation.Candidates([slot]))
            case AutoAccept(payload) => payload.AgreedSlot? && payload.slot in own && AtTheSameTime(payload.slot, slot)
            case AskOwner(_, ask) => ask.AskSlot? && (ask.selected.Some? ==> AtTheSameTime(ask.selected.value, slot))
            case CounterOffer(_) => forall x :: x in own ==> !AtTheSameTime(x, slot)
            case Decline(_) => false
  {
    var common := Scheduling.Intersect(own, [slot]);
    Scheduling.IntersectIsExact(own, [slot]);
    if common != [] {
      assert common[0] in common;
    }
    forall x | x in own && AtTheSameTime(x, slot) ensures common != [] {
      assert Scheduling.SameSlot(x, [slot][0]);
      assert x in common;
    }
    hide Scheduling.Intersect, MeetingSchedule.Reasons;
  }

  /** The slot that an owner picks is what is agreed on, if the peer's next answer agrees: on the same
      instants, as the peer's own calendar writes them. */
  lemma PickedSlotPrevails(s: Session, slot: Slot, peer: Session, p: MeetingSchedule.Party, own: seq<Slot>)
    requires s.status == WaitingApproval && s.pending.Some? && s.pending.value.proposal.MeetingProposal?
    requires slot in s.pending.value.proposal.candidates && s.pending.value.proposal.selected != Some(slot)
    requires peer.role == s.role.Other() && peer.agreement.None? && s.lastSequence == |s.log|
    ensures var said := Resolve(s, ApproveIt, Some(AgreedSlot(slot))).log;
            && |said| == |s.log| + 1
            && var w := said[|s.log|];
               var reply := RemoteMeeting.DecideRemoteReply(p, own, w.delta);
               var heard := Receive(Some(peer), w, Normally(reply));
               && w.kind == COUNTER && w.delta == RemoteNegotiation.Candidates([slot])
               && heard.Some? && (heard.value.agreement.Some? ==>
                    && heard.value.agreement.value.MeetingAgreement? && heard.value.agreement.value.slot.Some?
                    && heard.value.agreement.value.slot.value in own
                    && AtTheSameTime(heard.value.agreement.value.slot.value, slot))
  {
    OwnerAnswersSlots(s, Some(AgreedSlot(slot)));
    ReplyToOneSlot(p, own, slot);
    hide RemoteMeeting.DecideRemoteReply, Resolve, CounterRounds, RequestPayload, Refused;
  }

  // What an agreement is about

  /** Every agreement, whoever accepted, carries what the REQUEST asked for and what the acceptance
      named: no title, total, deadline or currency of its own, and yen only where none was named. */
  ghost predicate CarriesRequest(s: Session) {
    s.agreement.Some? ==>
      && s.log != [] && s.log[0].request.Some?
      && var request, terms := s.log[0].request.value, s.log[|s.log| - 1].delta;
         match s.agreement.value
         case CostAgreement(title, total, currency, share, deadline) =>
           && request.CostSplitRequest? && terms == Terms(AgreedShare(share))
           && title == request.title && total == request.total && deadline == request.deadline
           && (request.currency.Some? ==> currency == request.currency.value)
           && (request.currency.None? ==> currency == Text(0))
         case MeetingAgreement(slot) =>
           request.MeetingRequest? && (slot.Some? ==> terms == Terms(AgreedSlot(slot.value)))
  }

  lemma AgreementCarriesRequest(s: Option<Session>, events: seq<Event>)
    requires Initial(s) && ApplyAll(s, events).Some?
    ensures CarriesRequest(ApplyAll(s, events).value)
  {
    RunKeepsInv(s, events);
    SessionCarries(ApplyAll(s, events).value);
  }

  lemma SessionCarries(s: Session)
    requires SessionInv(s)
    ensures CarriesRequest(s)
  {
    hide CounterRounds, AsksAbout;
  }

  /** So does the question that an owner is asked. */
  lemma QuestionCarriesRequest(s: Option<Session>, events: seq<Event>)
    requires Initial(s) && ApplyAll(s, events).Some? && ApplyAll(s, events).value.pending.Some?
    requires ApplyAll(s, events).value.pending.value.proposal.CostProposal?
    ensures var t := ApplyAll(s, events).value;
            var context := t.pending.value.proposal.context;
            && t.log != [] && t.log[0].request.Some? && t.log[0].request.value.CostSplitRequest?
            && var request := t.log[0].request.value;
               && context.title == request.title && context.total == request.total
               && context.deadline == request.deadline && context.currency.Some?
               && (request.currency.Some? ==> context.currency == request.currency)
               && (request.currency.None? ==> context.currency == Some(Text(0)))
  {
    RunKeepsInv(s, events);
    hide CounterRounds, ApplyAll;
  }
}
