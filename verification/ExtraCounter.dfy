/** A COUNTER that an owner approves passes no round check. When a session exceeds the protocol's
    limit, and what becomes of it between honest nodes. */
module ExtraCounter {
  import opened Types
  import opened ProtocolState
  import opened RemoteNegotiation
  import opened RemoteBounds
  import opened TwoNodes

  predicate OverLimit(s: Session) {
    CounterRounds(s.log) > MAX_COUNTER_ROUNDS
  }

  /** The owner approves a COUNTER: another of the candidates than the selected one, or the offer
      of all of them when none is selected. */
  predicate ApprovesCounter(proposal: Proposal, resolution: Resolution, override: Option<Payload>) {
    && resolution == ApproveIt && proposal.MeetingProposal?
    && if override.None? then proposal.selected.None?
       else override.value.AgreedSlot? && override.value.slot in proposal.candidates
            && proposal.selected != Some(override.value.slot)
  }

  lemma ApprovesCounterExactly(proposal: Proposal, resolution: Resolution, override: Option<Payload>)
    ensures ApprovesCounter(proposal, resolution, override) <==>
              var reply := ApprovalReply(proposal, resolution, override);
              reply.Some? && reply.value.0 == COUNTER
  {
  }

  /** The owner approves a COUNTER after as many COUNTERs as the protocol admits. */
  predicate Oversteps(s: Session, e: Event) {
    && s.status == WaitingApproval && s.pending.Some? && CounterRounds(s.log) == MAX_COUNTER_ROUNDS
    && e.Decided? && ApprovesCounter(s.pending.value.proposal, e.resolution, e.override)
  }

  /** A session gets past the limit exactly there. */
  lemma OverLimitExactly(s: Session, e: Event)
    requires SessionInv(s)
    ensures var after := Apply(Some(s), e);
            after.Some? && (OverLimit(after.value) <==> OverLimit(s) || Oversteps(s, e))
  {
    if s.status.Terminal() {
      TerminalIsAbsorbing(s, e);
    } else {
      match e
      case Arrives(w, handling) =>
        hide SessionInv, Process, CounterRounds;
        if Refused(Some(s), w).None? && !handling.RolledBack? && w.sender != s.role {
          HearingStaysWithin(s, w, handling);
        }
      case Decided(resolution, override) =>
        DecidingOversteps(s, resolution, override);
    }
  }

  lemma SayingCounts(s: Session, kind: MessageType, delta: Delta)
    ensures CounterRounds(Say(s, kind, delta).log) == CounterRounds(s.log) + if kind == COUNTER then 1 else 0
  {
    LastCounts(s.log, Wire(s.role, s.lastSequence + 1, kind, None, delta));
  }

  lemma ReactingStaysWithin(s: Session, reply: Reply)
    ensures OverLimit(React(s, reply)) <==> OverLimit(s)
  {
    hide CounterRounds, Say, AcceptedByReply, RequestPayload, ProposalFor;
    match reply
    case AskOwner(_, _) =>
    case AutoAccept(payload) => SayingCounts(s, ACCEPT, Terms(payload));
    case Decline(reason) => SayingCounts(s, REJECT, Coded(Because(reason)));
    case CounterOffer(delta) =>
      SayingCounts(s, COUNTER, delta);
      SayingCounts(s, ERROR, Coded(ExhaustedCode(RequestPayload(s.log))));
  }

  lemma HearingStaysWithin(s: Session, w: Wire, handling: Handling)
    requires Refused(Some(s), w).None?
    ensures OverLimit(Process(s, w, handling)) <==> OverLimit(s)
  {
    hide CounterRounds, React, AcceptedByPeer;
    LastCounts(s.log, w);
    if handling.Normally? {
      ReactingStaysWithin(Record(s, w), handling.reply);
    }
  }

  lemma DecidingOversteps(s: Session, resolution: Resolution, override: Option<Payload>)
    requires SessionInv(s)
    ensures OverLimit(Resolve(s, resolution, override)) <==>
              OverLimit(s) || Oversteps(s, Decided(resolution, override))
  {
    forall kind, delta {
      LastCounts(s.log, Wire(s.role, s.lastSequence + 1, kind, None, delta));
    }
    if s.pending.Some? {
      ApprovesCounterExactly(s.pending.value.proposal, resolution, override);
    }
    hide CounterRounds, Orderly, ApprovalReply, AgreementByOwner, ApprovesCounter, AsksAbout;
  }

  /** No split ever does: its owner can change the share, but makes no offer. */
  lemma {:induction false} SplitsStayWithin(s: Option<Session>, events: seq<Event>)
    requires Initial(s) && ApplyAll(s, events).Some?
    requires ApplyAll(s, events).value.log != [] && ApplyAll(s, events).value.log[0].request.Some?
    requires ApplyAll(s, events).value.log[0].request.value.CostSplitRequest?
    ensures !OverLimit(ApplyAll(s, events).value)
  {
    hide CounterRounds, Apply, SessionInv;
    RunKeepsInv(s, events);
    if events == [] {
      var request, proposed :| s.value == Start(request, proposed);
      StartKeepsInv(request, proposed);
    } else {
      var before := ApplyAll(s, events[..|events| - 1]);
      var e := events[|events| - 1];
      RunKeepsInv(s, events[..|events| - 1]);
      if before.Some? {
        ApplyKeepsInv(before, e);
        SessionFacts(before.value);
        SplitsStayWithin(s, events[..|events| - 1]);
        OverLimitExactly(before.value, e);
        NoSplitOversteps(before.value, e);
      } else {
        FirstIsWithin(e);
      }
    }
  }

  lemma SessionFacts(s: Session)
    requires SessionInv(s)
    ensures s.log != [] && s.log[0].request.Some?
  {
    hide CounterRounds, AsksAbout;
  }

  lemma NoSplitOversteps(s: Session, e: Event)
    requires SessionInv(s) && s.log[0].request.value.CostSplitRequest?
    ensures !Oversteps(s, e)
  {
    hide CounterRounds, Orderly;
  }

  lemma FirstIsWithin(e: Event)
    ensures Apply(None, e).Some? ==> !OverLimit(Apply(None, e).value)
  {
    if e.Arrives? && Apply(None, e).Some? {
      LastCounts([], e.w);
      assert [] + [e.w] == [e.w];
    }
  }

  // Between honest nodes

  /** The number of COUNTERs of an orderly log follows from its length. */
  lemma {:induction false} CountersByLength(log: seq<Wire>)
    requires Orderly(log)
    ensures CounterRounds(log) ==
              if |log| <= 2 then 0 else |log| - if Closing(log[|log| - 1].kind) then 3 else 2
  {
    var front := log[..|log| - 1];
    assert InPlace(log, |log| - 1);
    if |log| == 1 {
      assert CounterRounds(front) == 0;
    } else {
      forall i | 0 <= i < |front| ensures InPlace(front, i) {
        assert InPlace(log, i);
      }
      assert InPlace(log, |log| - 2);
      CountersByLength(front);
    }
  }

  /** Every COUNTER that a node has heard was within the limit. */
  ghost predicate HeardWithin(log: seq<Wire>, peer: Side) {
    forall i :: 0 <= i < |log| && log[i].sender == peer && log[i].kind == COUNTER ==> i < MAX_COUNTER_ROUNDS + 2
  }

  ghost predicate WithinLimit(sys: System) {
    HeardWithin(sys.Log(Initiator), Responder) && HeardWithin(sys.Log(Responder), Initiator)
  }

  /** A COUNTER that is let in. */
  lemma AdmittedWithin(s: Session, w: Wire)
    requires SessionInv(s) && Refused(Some(s), w).None? && w.kind == COUNTER
    ensures |s.log| < MAX_COUNTER_ROUNDS + 2
  {
    hide CounterRounds, Orderly, AsksAbout, LastKind;
  }

  lemma AddingWithin(before: seq<Wire>, w: Wire, after: seq<Wire>, side: Side)
    requires Adds(before, w, after, side) && HeardWithin(before, side.Other())
    requires w.kind == COUNTER ==> |before| < MAX_COUNTER_ROUNDS + 2
    ensures HeardWithin(after, side.Other())
  {
    forall i | 0 <= i < |after| && after[i].sender == side.Other() && after[i].kind == COUNTER
      ensures i < MAX_COUNTER_ROUNDS + 2
    {
      assert i <= |before| ==> after[i] == (before + [w])[i];
    }
  }

  lemma ReceivedWithin(node: Option<Session>, side: Side, w: Wire, handling: Handling)
    requires node.Some? ==> SessionInv(node.value) && node.value.role == side
    requires node.None? ==> side.Responder?
    requires node.Some? ==> HeardWithin(node.value.log, side.Other())
    ensures var after := Receive(node, w, handling);
            HeardWithin(if after.Some? then after.value.log else [], side.Other())
  {
    if Receive(node, w, handling) != node {
      assert Refused(node, w).None? && (node.None? ==> w.kind == REQUEST);
      ReceiveAdds(node, w, handling);
      hide Receive, Refused, SessionInv, Adds;
      if w.kind == COUNTER {
        AdmittedWithin(node.value, w);
      }
      AddingWithin(if node.Some? then node.value.log else [], w, Receive(node, w, handling).value.log, side);
    }
  }

  lemma ResolvedWithin(s: Session, resolution: Resolution, override: Option<Payload>)
    requires SessionInv(s) && HeardWithin(s.log, s.role.Other())
    ensures HeardWithin(Resolve(s, resolution, override).log, s.role.Other())
  {
    var after := Resolve(s, resolution, override);
    if after != s {
      ResolveAdds(s, resolution, override);
      assert forall i :: 0 <= i < |s.log| ==> after.log[i] == s.log[i];
    }
    hide SessionInv, Resolve;
  }

  lemma NextStaysWithin(sys: System, step: Step)
    requires SystemInv(sys) && WithinLimit(sys)
    ensures WithinLimit(Next(sys, step))
  {
    hide Receive, Resolve, SessionInv, HeardWithin;
    assert NodeInv(sys, Initiator) && NodeInv(sys, Responder);
    match step
    case StartNegotiation(request, proposed) =>
      OwnOpeningWithin(request, proposed);
    case Flush(_, _) =>
    case Deliver(receiver, w, handling) =>
      if w in sys.relay && w.sender == receiver.Other() {
        if sys.Node(receiver).None? && receiver.Initiator? {
          NothingFromResponder(w, handling);
        } else {
          ReceivedWithin(sys.Node(receiver), receiver, w, handling);
        }
      }
    case Decide(side, resolution, override) =>
      if sys.Node(side).Some? {
        ResolvedWithin(sys.Node(side).value, resolution, override);
      }
  }

  lemma OwnOpeningWithin(request: Request, proposed: Delta)
    ensures HeardWithin(Start(request, proposed).log, Responder)
  {
  }

  lemma NothingFromResponder(w: Wire, handling: Handling)
    requires w.sender == Responder
    ensures Receive(None, w, handling).None?
  {
  }

  lemma {:induction false} EveryRunWithin(steps: seq<Step>)
    ensures WithinLimit(Execute(steps))
  {
    if steps != [] {
      var before := steps[..|steps| - 1];
      EveryRunWithin(before);
      EveryRunKeepsInv(before);
      hide SystemInv, WithinLimit, Next;
      NextStaysWithin(Execute(before), steps[|steps| - 1]);
    }
  }

  /** The message that a node's log holds at a place that is not the last, from the third on. */
  lemma CounterInside(sys: System, side: Side, i: nat)
    requires SystemInv(sys) && 2 <= i && i + 1 < |sys.Log(side)|
    ensures sys.Log(side)[i].kind == COUNTER
  {
    PlaceOf(sys, side, i);
    hide SystemInv;
  }

  /** Between honest nodes no log holds more than one message after the last admissible COUNTER. */
  lemma HonestBound(sys: System, side: Side)
    requires SystemInv(sys) && WithinLimit(sys)
    ensures |sys.Log(side)| <= MAX_COUNTER_ROUNDS + 3
  {
    var last := MAX_COUNTER_ROUNDS + 2;
    if |sys.Log(side)| > last + 1 {
      assert SenderAt(last) == Initiator && SenderAt(last + 1) == Responder;
      PlaceOf(sys, side, last + 1);
      assert NodeInv(sys, side);
      assert |sys.Log(Responder)| > last + 1;
      PlaceOf(sys, Responder, last);
      CounterInside(sys, Responder, last);
      assert false;
    }
  }

  /** One node has said a COUNTER more than the protocol admits. */
  ghost predicate ExtraCounterSaid(sys: System) {
    exists side: Side :: sys.Node(side).Some? && OverLimit(sys.Node(side).value)
  }

  lemma NotHeardByResponder(sys: System)
    requires SystemInv(sys) && WithinLimit(sys)
    ensures var x, y, n := sys.Log(Initiator), sys.Log(Responder), MAX_COUNTER_ROUNDS + 2;
            |x| > n && x[n].sender == Initiator && x[n].kind == COUNTER ==> |y| <= n
  {
    LogsComparable(sys);
    hide SystemInv;
  }

  /** Then it is the initiator, in the sixth message, which the responder has not heard. */
  lemma ExtraCounterPlaced(sys: System)
    requires SystemInv(sys) && WithinLimit(sys) && ExtraCounterSaid(sys)
    ensures var x, y := sys.Log(Initiator), sys.Log(Responder);
            && |x| == MAX_COUNTER_ROUNDS + 3 && x[|x| - 1].kind == COUNTER && x[|x| - 1].sender == Initiator
            && |y| == MAX_COUNTER_ROUNDS + 2 && y[|y| - 1].kind == COUNTER && y[|y| - 1].sender == Responder
  {
    var side :| sys.Node(side).Some? && OverLimit(sys.Node(side).value);
    var x, y := sys.Log(Initiator), sys.Log(Responder);
    var n := MAX_COUNTER_ROUNDS + 2;
    assert NodeInv(sys, Initiator) && NodeInv(sys, Responder);
    HonestBound(sys, side);
    OrderlyLog(sys.Node(side).value);
    CountersByLength(sys.Log(side));
    assert |sys.Log(side)| == n + 1 && !Closing(sys.Log(side)[n].kind);
    PlaceOf(sys, side, n);
    hide SessionInv, CounterRounds, SystemInv, InPlace;
    assert side == Initiator;
    PlaceOf(sys, Initiator, n - 1);
    CounterInside(sys, Initiator, n - 1);
    assert |y| >= n && y[n - 1] == x[n - 1];
    NotHeardByResponder(sys);
  }

  lemma OrderlyLog(s: Session)
    requires SessionInv(s)
    ensures Orderly(s.log)
  {
    hide CounterRounds, AsksAbout;
  }

  /** The session is stranded: open on both sides, and the responder refuses the message that it
      lacks, each time that it is delivered. */
  lemma ExtraCounterRefused(sys: System)
    requires SystemInv(sys) && WithinLimit(sys) && ExtraCounterSaid(sys)
    ensures sys.initiator.Some? && sys.initiator.value.status == Open
    ensures sys.responder.Some? && sys.responder.value.status == Open
    ensures Refused(sys.responder, sys.Log(Initiator)[|sys.Log(Initiator)| - 1]) == Some(TooManyCounters)
  {
    ExtraCounterPlaced(sys);
    assert NodeInv(sys, Initiator) && NodeInv(sys, Responder);
    OrderlyLog(sys.responder.value);
    CountersByLength(sys.Log(Responder));
    PlaceOf(sys, Initiator, MAX_COUNTER_ROUNDS + 2);
    hide CounterRounds, Orderly, AsksAbout;
  }

  lemma Unheard(sys: System, receiver: Side, w: Wire)
    requires SystemInv(sys) && WithinLimit(sys) && ExtraCounterSaid(sys)
    requires w in sys.relay && w.sender == receiver.Other()
    ensures Refused(sys.Node(receiver), w).Some?
  {
    ExtraCounterPlaced(sys);
    ExtraCounterRefused(sys);
    assert Sent(w, sys.Log(w.sender)) && NodeInv(sys, receiver);
    hide CounterRounds, Orderly, AsksAbout;
  }

  /** No further step changes either node. */
  lemma StepStrands(sys: System, step: Step)
    requires SystemInv(sys) && WithinLimit(sys) && ExtraCounterSaid(sys)
    ensures Next(sys, step).initiator == sys.initiator && Next(sys, step).responder == sys.responder
  {
    ExtraCounterRefused(sys);
    hide SystemInv, WithinLimit, ExtraCounterSaid, Refused;
    if step.Deliver? && step.w in sys.relay && step.w.sender == step.receiver.Other() {
      Unheard(sys, step.receiver, step.w);
    }
  }

  /** In every run between honest nodes each log has at most MAX_COUNTER_ROUNDS + 3 messages. */
  lemma HonestRunsAreShort(steps: seq<Step>, side: Side)
    ensures |Execute(steps).Log(side)| <= MAX_COUNTER_ROUNDS + 3
  {
    EveryRunKeepsInv(steps);
    EveryRunWithin(steps);
    HonestBound(Execute(steps), side);
  }

  /** A session that has got past the limit is stranded for good: both sides are open, and nothing
      that the Relay, the domains or the owners can still do changes either of them. */
  lemma {:induction false} StrandedForGood(steps: seq<Step>, more: seq<Step>)
    requires ExtraCounterSaid(Execute(steps))
    ensures var sys, later := Execute(steps), Execute(steps + more);
            && sys.initiator.Some? && sys.initiator.value.status == Open
            && sys.responder.Some? && sys.responder.value.status == Open
            && later.initiator == sys.initiator && later.responder == sys.responder
  {
    hide SystemInv, WithinLimit, Next;
    EveryRunKeepsInv(steps);
    EveryRunWithin(steps);
    ExtraCounterRefused(Execute(steps));
    if more == [] {
      assert steps + more == steps;
    } else {
      var n := |more| - 1;
      assert (steps + more)[..|steps| + n] == steps + more[..n];
      StrandedForGood(steps, more[..n]);
      EveryRunKeepsInv(steps + more[..n]);
      EveryRunWithin(steps + more[..n]);
      var side :| Execute(steps).Node(side).Some? && OverLimit(Execute(steps).Node(side).value);
      assert Execute(steps + more[..n]).Node(side) == Execute(steps).Node(side);
      StepStrands(Execute(steps + more[..n]), more[n]);
    }
  }
}
