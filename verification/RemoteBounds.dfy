/** What one node's session keeps whatever envelopes arrive, from an honest peer or not, and
    whatever its owner decides. */
module RemoteBounds {
  import opened Types
  import opened ProtocolState
  import opened RemoteNegotiation
  import MeetingSchedule

  const MAX_COUNTERS := MAX_COUNTER_ROUNDS + 1
  const MAX_MESSAGES := MAX_COUNTER_ROUNDS + 4

  predicate Closing(kind: MessageType) {
    kind in {ACCEPT, REJECT, ERROR}
  }

  /** Message number i+1, and what may stand there: a REQUEST first, a PROPOSE or the end
      second, then COUNTERs, and nothing after the end. */
  predicate InPlace(log: seq<Wire>, i: nat)
    requires i < |log|
  {
    && log[i].sequence == i + 1
    && (if i == 0 then log[i].kind == REQUEST && log[i].request.Some?
        else if i == 1 then log[i].kind in {PROPOSE, REJECT, ERROR}
        else log[i].kind == COUNTER || Closing(log[i].kind))
    && (Closing(log[i].kind) ==> i == |log| - 1)
  }

  ghost predicate Orderly(log: seq<Wire>) {
    log != [] && forall i :: 0 <= i < |log| ==> InPlace(log, i)
  }

  /** The stored question is one about this request. */
  ghost predicate AsksAbout(request: Request, proposal: Proposal) {
    exists ask :: ProposalFor(request, ask) == Some(proposal)
  }

  /** The invariant of a session. A session that waits for its owner has just heard an offer of
      its peer; a question can outlive the wait only in a session that failed. */
  ghost predicate SessionInv(s: Session) {
    && Orderly(s.log) && s.log[0].request.Some? && s.lastSequence == |s.log|
    && CounterRounds(s.log) <= MAX_COUNTERS && (|s.log| <= 2 ==> CounterRounds(s.log) == 0)
    && |s.log| <= 2 + CounterRounds(s.log) + (if s.status.Terminal() then 1 else 0)
    && var last := s.log[|s.log| - 1];
       && (s.status == Agreed <==> last.kind == ACCEPT)
       && (s.status == Failed <==> last.kind in {REJECT, ERROR})
       && (s.status == WaitingApproval ==>
             s.pending.Some? && last.kind in {PROPOSE, COUNTER} && last.sender == s.role.Other()
             && CounterRounds(s.log) <= MAX_COUNTER_ROUNDS)
       && (s.pending.Some? ==> s.status in {WaitingApproval, Failed})
       && (s.pending.Some? ==> AsksAbout(s.log[0].request.value, s.pending.value.proposal))
       && (s.agreement.Some? <==> s.status == Agreed)
       && (s.status == Agreed ==> s.agreement == AgreementOn(s.log[0].request.value, last.delta))
  }

  lemma LastCounts(log: seq<Wire>, w: Wire)
    ensures CounterRounds(log + [w]) == CounterRounds(log) + if w.kind == COUNTER then 1 else 0
    ensures LastKind(log + [w]) == Some(w.kind)
  {
    assert (log + [w])[..|log|] == log;
  }

  /** A message in its place keeps the log orderly. */
  lemma OrderlyGrows(log: seq<Wire>, w: Wire)
    requires Orderly(log) && !Closing(log[|log| - 1].kind)
    requires w.sequence == |log| + 1
    requires w.kind in AllowedAfter(LastKind(log))
    ensures Orderly(log + [w])
    ensures (log + [w])[0] == log[0]
  {
    assert InPlace(log, |log| - 1);
    forall i | 0 <= i < |log| + 1 ensures InPlace(log + [w], i) {
      assert i < |log| ==> InPlace(log, i);
    }
  }

  lemma RequestIsFirst(log: seq<Wire>)
    requires Orderly(log)
    ensures RequestPayload(log) == log[0].request && log[0].request.Some?
  {
    assert InPlace(log, 0);
  }

  /** Logging any admissible message, in either direction. */
  lemma RecordKeepsShape(s: Session, w: Wire)
    requires SessionInv(s) && !s.status.Terminal()
    requires w.sequence == s.lastSequence + 1 && w.kind in AllowedAfter(LastKind(s.log))
    ensures var r := Record(s, w);
            && Orderly(r.log) && r.lastSequence == |r.log| == |s.log| + 1
            && r.log[0] == s.log[0] && r.log[|s.log|] == w && r.log[..|s.log|] == s.log
            && CounterRounds(r.log) == CounterRounds(s.log) + (if w.kind == COUNTER then 1 else 0)
            && |r.log| <= 2 + CounterRounds(r.log) + (if Closing(w.kind) then 1 else 0)
            && (|r.log| <= 2 ==> CounterRounds(r.log) == 0) && (w.kind == PROPOSE ==> |r.log| == 2)
  {
    OrderlyGrows(s.log, w);
    LastCounts(s.log, w);
    assert InPlace(s.log, |s.log| - 1);
  }

  /** An offer has been heard: this session can answer, wait, or stay silent. */
  ghost predicate Heard(s: Session) {
    SessionInv(s) && s.status == Open && s.log[|s.log| - 1].kind in {PROPOSE, COUNTER}
    && s.log[|s.log| - 1].sender == s.role.Other() && CounterRounds(s.log) <= MAX_COUNTER_ROUNDS
  }

  lemma SayKeepsShape(s: Session, kind: MessageType, delta: Delta)
    requires SessionInv(s) && !s.status.Terminal()
    requires s.log[|s.log| - 1].kind in {PROPOSE, COUNTER} && kind in {COUNTER, ACCEPT, REJECT, ERROR}
    ensures var r := Say(s, kind, delta);
            && Orderly(r.log) && r.lastSequence == |r.log| == |s.log| + 1
            && r.log[0] == s.log[0] && r.log[..|s.log|] == s.log
            && r.log[|s.log|] == Wire(s.role, |s.log| + 1, kind, None, delta)
            && CounterRounds(r.log) == CounterRounds(s.log) + (if kind == COUNTER then 1 else 0)
            && |r.log| <= 2 + CounterRounds(r.log) + (if Closing(kind) then 1 else 0)
            && |r.log| > 2
  {
    assert InPlace(s.log, |s.log| - 1);
    RecordKeepsShape(s, Wire(s.role, s.lastSequence + 1, kind, None, delta));
  }

  /** A message that this side adds to its session, and what becomes of the session. */
  lemma SayKeepsInv(s: Session, kind: MessageType, delta: Delta, status: Status, agreement: Option<Agreement>)
    requires SessionInv(s) && !s.status.Terminal() && s.pending.None?
    requires s.log[|s.log| - 1].kind in {PROPOSE, COUNTER} && CounterRounds(s.log) <= MAX_COUNTER_ROUNDS
    requires match kind
             case COUNTER => status == Open && agreement.None?
             case ACCEPT => status == Agreed && agreement.Some?
               && agreement == AgreementOn(s.log[0].request.value, delta)
             case REJECT => status == Failed && agreement.None?
             case ERROR => status == Failed && agreement.None?
             case _ => false
    ensures SessionInv(Say(s, kind, delta).(status := status, agreement := agreement))
    ensures s.log <= Say(s, kind, delta).log
  {
    hide CounterRounds, AgreementOn;
    SayKeepsShape(s, kind, delta);
  }

  lemma ConsultKeepsInv(s: Session, reason: Reason, ask: Ask)
    requires Heard(s)
    ensures SessionInv(Consult(s, reason, ask))
  {
    hide CounterRounds, ProposalFor, AgreementOn;
    RequestIsFirst(s.log);
  }

  lemma ReactKeepsInv(s: Session, reply: Reply)
    requires Heard(s)
    ensures SessionInv(React(s, reply))
    ensures s.log <= React(s, reply).log
  {
    RequestIsFirst(s.log);
    assert s.agreement.None? && s.pending.None?;
    hide CounterRounds, RequestPayload, AgreementOn, AgreementByReply, AsksAbout, ProposalFor, Orderly;
    match reply
    case AskOwner(reason, ask) =>
      ConsultKeepsInv(s, reason, ask);
    case AutoAccept(payload) =>
      PathsAgree(s.log[0].request.value, payload, AskShare(0));
      if AcceptedByReply(s.log, payload).Some? {
        SayKeepsInv(s, ACCEPT, Terms(payload), Agreed, AcceptedByReply(s.log, payload));
      }
    case Decline(reason) =>
      SayKeepsInv(s, REJECT, Coded(Because(reason)), Failed, None);
    case CounterOffer(delta) =>
      SayKeepsInv(s, COUNTER, delta, Open, None);
      SayKeepsInv(s, ERROR, Coded(ExhaustedCode(RequestPayload(s.log))), Failed, None);
  }

  lemma OfferKeepsInv(s: Session, w: Wire, handling: Handling)
    requires SessionInv(s) && Refused(Some(s), w).None? && w.sender == s.role.Other() && w.kind in {PROPOSE, COUNTER}
    ensures SessionInv(Process(s, w, handling))
    ensures s.log <= Process(s, w, handling).log
  {
    hide CounterRounds, React, AsksAbout, AgreementOn;
    RecordKeepsShape(s, w);
    var recorded := Record(s, w);
    assert Heard(recorded);
    if handling.Normally? {
      ReactKeepsInv(recorded, handling.reply);
    }
  }

  lemma EndKeepsInv(s: Session, w: Wire, handling: Handling)
    requires SessionInv(s) && Refused(Some(s), w).None? && w.sender == s.role.Other() && w.kind !in {PROPOSE, COUNTER}
    ensures SessionInv(Process(s, w, handling))
    ensures s.log <= Process(s, w, handling).log
  {
    hide CounterRounds, AsksAbout, AgreementOn;
    RecordKeepsShape(s, w);
    RequestIsFirst(Record(s, w).log);
  }

  lemma ProcessKeepsInv(s: Session, w: Wire, handling: Handling)
    requires SessionInv(s) && Refused(Some(s), w).None? && w.sender == s.role.Other()
    ensures SessionInv(Process(s, w, handling))
    ensures s.log <= Process(s, w, handling).log
  {
    hide SessionInv, Process, Refused;
    if w.kind in {PROPOSE, COUNTER} {
      OfferKeepsInv(s, w, handling);
    } else {
      EndKeepsInv(s, w, handling);
    }
  }

  lemma ReceiveKeepsInv(s: Option<Session>, w: Wire, handling: Handling)
    requires s.Some? ==> SessionInv(s.value)
    ensures Receive(s, w, handling).Some? ==> SessionInv(Receive(s, w, handling).value)
    ensures s.Some? ==> Receive(s, w, handling).Some? && s.value.log <= Receive(s, w, handling).value.log
  {
    if s.None? {
      FirstMessageKeepsInv(w, handling);
    } else {
      hide SessionInv, CounterRounds, Process, Orderly, ValidateIncoming;
      if Refused(s, w).None? && w.sender != s.value.role && !handling.RolledBack? {
        ProcessKeepsInv(s.value, w, handling);
      }
    }
  }

  lemma FirstMessageKeepsInv(w: Wire, handling: Handling)
    ensures Receive(None, w, handling).Some? ==> SessionInv(Receive(None, w, handling).value)
  {
    LastCounts([], w);
    assert [] + [w] == [w];
  }

  lemma ResolveKeepsInv(s: Session, resolution: Resolution, override: Option<Payload>)
    requires SessionInv(s)
    ensures SessionInv(Resolve(s, resolution, override))
    ensures s.log <= Resolve(s, resolution, override).log
  {
    hide CounterRounds;
    if s.status == WaitingApproval {
      match ApprovalReply(s.pending.value.proposal, resolution, override)
      case None =>
      case Some((kind, delta)) =>
        SayKeepsShape(s, kind, delta);
        if kind == ACCEPT {
          var ask :| ProposalFor(s.log[0].request.value, ask) == Some(s.pending.value.proposal);
          PathsAgree(s.log[0].request.value, delta.payload, ask);
        }
        hide ProposalFor, AgreementByOwner, AgreementOn;
    }
  }

  lemma StartKeepsInv(request: Request, proposed: Delta)
    ensures SessionInv(Start(request, proposed))
    ensures CounterRounds(Start(request, proposed).log) == 0
  {
    var log := Start(request, proposed).log;
    assert log == [] + [log[0]] + [log[1]];
    LastCounts([], log[0]);
    LastCounts([] + [log[0]], log[1]);
  }

  /** What can happen to a session: any envelope at all, or a decision of the owner. */
  datatype Event = Arrives(w: Wire, handling: Handling) | Decided(resolution: Resolution, override: Option<Payload>)

  function Apply(s: Option<Session>, e: Event): Option<Session> {
    match e
    case Arrives(w, handling) => Receive(s, w, handling)
    case Decided(resolution, override) => if s.None? then None else Some(Resolve(s.value, resolution, override))
  }

  function ApplyAll(s: Option<Session>, events: seq<Event>): Option<Session> {
    if events == [] then s else Apply(ApplyAll(s, events[..|events| - 1]), events[|events| - 1])
  }

  lemma ApplyKeepsInv(s: Option<Session>, e: Event)
    requires s.Some? ==> SessionInv(s.value)
    ensures Apply(s, e).Some? ==> SessionInv(Apply(s, e).value)
    ensures s.Some? ==> Apply(s, e).Some? && s.value.log <= Apply(s, e).value.log
  {
    match e
    case Arrives(w, handling) => ReceiveKeepsInv(s, w, handling);
    case Decided(resolution, override) => if s.Some? { ResolveKeepsInv(s.value, resolution, override); }
  }

  /** A session starts with a REQUEST of the peer, or with this node's own REQUEST and PROPOSE. */
  ghost predicate Initial(s: Option<Session>) {
    s.None? || exists request, proposed :: s.value == Start(request, proposed)
  }

  lemma {:induction false} RunKeepsInv(s: Option<Session>, events: seq<Event>)
    requires Initial(s)
    ensures ApplyAll(s, events).Some? ==> SessionInv(ApplyAll(s, events).value)
  {
    if events == [] {
      if s.Some? {
        var request, proposed :| s.value == Start(request, proposed);
        StartKeepsInv(request, proposed);
      }
    } else {
      RunKeepsInv(s, events[..|events| - 1]);
      ApplyKeepsInv(ApplyAll(s, events[..|events| - 1]), events[|events| - 1]);
    }
  }

  /** Bounded sessions against any peer. */
  lemma BoundedAgainstAnyPeer(s: Option<Session>, events: seq<Event>)
    requires Initial(s) && ApplyAll(s, events).Some?
    ensures var log := ApplyAll(s, events).value.log;
            CounterRounds(log) <= MAX_COUNTERS && |log| <= MAX_MESSAGES
    ensures forall i :: 0 <= i < |ApplyAll(s, events).value.log| ==> ApplyAll(s, events).value.log[i].sequence == i + 1
    ensures ApplyAll(s, events).value.lastSequence == |ApplyAll(s, events).value.log|
  {
    RunKeepsInv(s, events);
    var log := ApplyAll(s, events).value.log;
    forall i | 0 <= i < |log| ensures log[i].sequence == i + 1 {
      assert InPlace(log, i);
    }
  }

  /** A terminated session stays as it is, whatever happens. */
  lemma TerminalIsAbsorbing(s: Session, e: Event)
    requires s.status.Terminal()
    ensures Apply(Some(s), e) == Some(s)
  {
  }

  /** A question to the owner that is still there when the session has ended. */
  predicate Outlived(s: Option<Session>) {
    s.Some? && s.value.status == Failed && s.value.pending.Some?
  }

  /** The peer breaks off while this side's owner is asked. */
  predicate BreaksOff(s: Session, e: Event) {
    && s.status == WaitingApproval && e.Arrives? && !e.handling.RolledBack?
    && e.w.kind in {REJECT, ERROR} && e.w.sender == s.role.Other() && e.w.sequence == s.lastSequence + 1
  }

  /** A question outlives its session exactly when the peer breaks off during the wait; from then on
      no decision resolves it. */
  lemma OutlivedExactly(s: Session, e: Event)
    requires SessionInv(s)
    ensures Outlived(Apply(Some(s), e)) <==> Outlived(Some(s)) || BreaksOff(s, e)
    ensures BreaksOff(s, e) ==> Apply(Some(s), e).value.pending == s.pending
  {
    if s.status.Terminal() {
      TerminalIsAbsorbing(s, e);
    } else {
      match e
      case Arrives(w, handling) =>
        if s.status == WaitingApproval {
          BreakingOff(s, w, handling);
        } else {
          OpenIsNotOutlived(s, w, handling);
        }
      case Decided(resolution, override) =>
        DecidedIsNotOutlived(s, resolution, override);
    }
  }

  lemma BreakingOff(s: Session, w: Wire, handling: Handling)
    requires SessionInv(s) && s.status == WaitingApproval
    ensures BreaksOff(s, Arrives(w, handling)) ==>
              Receive(Some(s), w, handling)
              == Some(Session(s.role, s.log + [w], w.sequence, Failed, s.pending, s.agreement))
    ensures !BreaksOff(s, Arrives(w, handling)) ==> Receive(Some(s), w, handling) == Some(s)
  {
    assert s.log != [];
    hide CounterRounds, Orderly;
  }

  lemma OpenIsNotOutlived(s: Session, w: Wire, handling: Handling)
    requires SessionInv(s) && s.status == Open
    ensures !Outlived(Receive(Some(s), w, handling))
  {
    hide CounterRounds, Orderly, AcceptedByPeer, AcceptedByReply, ProposalFor, AsksAbout;
  }

  lemma DecidedIsNotOutlived(s: Session, resolution: Resolution, override: Option<Payload>)
    requires SessionInv(s) && !s.status.Terminal()
    ensures !Outlived(Some(Resolve(s, resolution, override)))
  {
    hide CounterRounds, Orderly, AgreementByOwner, ApprovalReply, AsksAbout;
  }

  function FirstWire(request: Request): Wire {
    Wire(Initiator, 1, REQUEST, Some(request), NoDelta)
  }

  function SecondWire(delta: Delta): Wire {
    Wire(Initiator, 2, PROPOSE, None, delta)
  }

  lemma RequestReceived(request: Request)
    ensures Receive(None, FirstWire(request), Unanswered)
         == Some(Session(Responder, [FirstWire(request)], 1, Open, None, None))
  {
    hide CounterRounds;
  }

  lemma ProposalAdmitted(request: Request, delta: Delta)
    ensures Refused(Some(Session(Responder, [FirstWire(request)], 1, Open, None, None)), SecondWire(delta)).None?
  {
    LastCounts([], FirstWire(request));
    hide CounterRounds;
    assert [] + [FirstWire(request)] == [FirstWire(request)];
  }

  lemma OwnerConsulted(request: Request, reason: Reason, ask: Ask, delta: Delta)
    requires ProposalFor(request, ask).Some?
    ensures var opening := [FirstWire(request), SecondWire(delta)];
            React(Session(Responder, opening, 2, Open, None, None), AskOwner(reason, ask))
            == Session(Responder, opening, 2, WaitingApproval,
                       Some(Question(reason, ProposalFor(request, ask).value)), None)
  {
    hide ProposalFor, CounterRounds;
  }

  /** What a responder has been asked about at once. */
  lemma AskedAtOnce(request: Request, reason: Reason, ask: Ask, delta: Delta)
    requires ProposalFor(request, ask).Some?
    ensures Receive(Receive(None, FirstWire(request), Unanswered), SecondWire(delta), Normally(AskOwner(reason, ask)))
            == Some(Session(Responder, [FirstWire(request), SecondWire(delta)], 2, WaitingApproval,
                            Some(Question(reason, ProposalFor(request, ask).value)), None))
  {
    hide ProposalFor, React, Refused;
    RequestReceived(request);
    ProposalAdmitted(request, delta);
    OwnerConsulted(request, reason, ask, delta);
    assert [FirstWire(request)] + [SecondWire(delta)] == [FirstWire(request), SecondWire(delta)];
  }

  /** Such a run exists for every request: the responder's owner is asked at once, and the initiator
      breaks off. */
  lemma QuestionMayOutlive(request: Request, reason: Reason, delta: Delta)
    ensures exists events :: Outlived(ApplyAll(None, events))
                             && FirstWire(request) in ApplyAll(None, events).value.log
                             && ApplyAll(None, events).value.pending.value.reason == reason
  {
    var ask := if request.MeetingRequest? then AskSlot(None, []) else AskShare(0);
    var e := [Arrives(FirstWire(request), Unanswered),
              Arrives(SecondWire(delta), Normally(AskOwner(reason, ask))),
              Arrives(Wire(Initiator, 3, REJECT, None, Coded(HumanRejected)), Unanswered)];
    assert ProposalFor(request, ask).Some?;
    hide Receive, Resolve, ApplyAll, ProposalFor, SessionInv, Outlived;
    AskedAtOnce(request, reason, ask, delta);
    ThreeEvents(None, e);
    RunKeepsInv(None, e[..2]);
    BrokenOff(ApplyAll(None, e[..2]).value, e[2]);
    assert FirstWire(request) in ApplyAll(None, e[..2]).value.log;
  }

  lemma BrokenOff(s: Session, e: Event)
    requires SessionInv(s) && BreaksOff(s, e)
    ensures var after := Apply(Some(s), e);
            Outlived(after) && after.value.pending == s.pending && s.log <= after.value.log
  {
    OutlivedExactly(s, e);
    ApplyKeepsInv(Some(s), e);
    hide Apply, SessionInv, Orderly;
  }

  lemma ThreeEvents(s: Option<Session>, e: seq<Event>)
    requires |e| == 3
    ensures ApplyAll(s, e) == Apply(ApplyAll(s, e[..2]), e[2])
    ensures ApplyAll(s, e[..2]) == Apply(Apply(s, e[0]), e[1])
  {
    assert e[..2][..1] == e[..1] && e[..1][..0] == [];
    assert ApplyAll(s, e[..1]) == Apply(s, e[0]);
  }

  function Length(s: Option<Session>): nat {
    if s.Some? then |s.value.log| else 0
  }

  /** An event with an effect adds to the log: the log's length is a termination measure across
      receiving, answering and the owner's decisions. */
  lemma EffectGrowsLog(s: Option<Session>, e: Event)
    requires s.Some? ==> SessionInv(s.value)
    requires Apply(s, e) != s
    ensures Length(Apply(s, e)) > Length(s)
  {
    if e.Arrives? && s.Some? {
      ProcessGrowsLog(s.value, e.w, e.handling);
    }
  }

  lemma ProcessGrowsLog(s: Session, w: Wire, handling: Handling)
    requires w.sequence >= 0
    ensures Process(s, w, handling) == s || |Process(s, w, handling).log| > |s.log|
  {
  }

  /** How many events of a run had an effect. */
  function Effects(s: Option<Session>, events: seq<Event>): nat {
    if events == [] then 0
    else
      var before := events[..|events| - 1];
      Effects(s, before) + if ApplyAll(s, events) != ApplyAll(s, before) then 1 else 0
  }

  /** However long a run is, only a bounded number of its events do anything. */
  lemma FewEventsHaveEffect(s: Option<Session>, events: seq<Event>)
    requires Initial(s)
    ensures Effects(s, events) <= MAX_MESSAGES
  {
    EffectsBoundedByLog(s, events);
    if ApplyAll(s, events).Some? {
      BoundedAgainstAnyPeer(s, events);
    }
  }

  lemma {:induction false} EffectsBoundedByLog(s: Option<Session>, events: seq<Event>)
    requires Initial(s)
    ensures Effects(s, events) <= Length(ApplyAll(s, events))
  {
    if events != [] {
      var before := events[..|events| - 1];
      EffectsBoundedByLog(s, before);
      RunKeepsInv(s, before);
      if ApplyAll(s, events) != ApplyAll(s, before) {
        EffectGrowsLog(ApplyAll(s, before), events[|events| - 1]);
      }
    }
  }

  /** An initiator that has made an offer and waits for the answer. */
  ghost predicate Offering(s: Session, counters: nat, length: nat) {
    && SessionInv(s) && s.status == Open && s.role == Initiator
    && s.log[|s.log| - 1].kind in {PROPOSE, COUNTER}
    && CounterRounds(s.log) == counters && |s.log| == length && s.log[0].request.value.MeetingRequest?
  }

  function PeerSays(length: nat, kind: MessageType, delta: Delta, handling: Handling): Event {
    Arrives(Wire(Responder, length + 1, kind, None, delta), handling)
  }

  lemma AnswersCounter(s: Session, delta: Delta)
    requires Offering(s, 0, 2)
    ensures var t := Apply(Some(s), PeerSays(2, COUNTER, delta, Normally(CounterOffer(delta))));
            t.Some? && Offering(t.value, 2, 4)
  {
    hide CounterRounds;
    var w := Wire(Responder, 3, COUNTER, None, delta);
    RecordKeepsShape(s, w);
    ReceiveKeepsInv(Some(s), w, Normally(CounterOffer(delta)));
    ProcessKeepsInv(s, w, Unanswered);
    SayKeepsShape(Record(s, w), COUNTER, delta);
  }

  lemma AsksOwner(s: Session, delta: Delta, reason: Reason, slots: seq<Slot>)
    requires Offering(s, 2, 4)
    ensures var t := Apply(Some(s), PeerSays(4, COUNTER, delta, Normally(AskOwner(reason, AskSlot(None, slots)))));
            && t.Some? && SessionInv(t.value) && t.value.status == WaitingApproval && t.value.role == Initiator
            && t.value.pending == Some(Question(reason, MeetingProposal(None, slots)))
            && t.value.log[0] == s.log[0] && CounterRounds(t.value.log) == 3 && |t.value.log| == 5
  {
    hide CounterRounds;
    var w := Wire(Responder, 5, COUNTER, None, delta);
    RecordKeepsShape(s, w);
    RequestIsFirst(Record(s, w).log);
    ReceiveKeepsInv(Some(s), w, Normally(AskOwner(reason, AskSlot(None, slots))));
  }

  lemma OwnerCounters(s: Session, slots: seq<Slot>)
    requires SessionInv(s) && s.status == WaitingApproval && s.role == Initiator && |s.log| == 5
    requires s.log[0].request.value.MeetingRequest?
    requires s.pending.value.proposal == MeetingProposal(None, slots) && CounterRounds(s.log) == 3
    ensures var t := Apply(Some(s), Decided(ApproveIt, None));
            t.Some? && Offering(t.value, 4, 6)
  {
    hide CounterRounds;
    ResolveKeepsInv(s, ApproveIt, None);
    SayKeepsShape(s, COUNTER, Candidates(Take(slots, MeetingSchedule.OFFER_SIZE)));
  }

  lemma PeerAccepts(s: Session, slot: Slot)
    requires Offering(s, 4, 6)
    ensures var t := Apply(Some(s), PeerSays(6, ACCEPT, Terms(AgreedSlot(slot)), Unanswered));
            t.Some? && t.value.status == Agreed && CounterRounds(t.value.log) == MAX_COUNTERS
              && |t.value.log| == MAX_MESSAGES
  {
    hide CounterRounds;
    var w := Wire(Responder, 7, ACCEPT, None, Terms(AgreedSlot(slot)));
    RecordKeepsShape(s, w);
    RequestIsFirst(Record(s, w).log);
  }

  lemma FourEvents(s: Option<Session>, e: seq<Event>)
    requires |e| == 4
    ensures ApplyAll(s, e) == Apply(Apply(Apply(Apply(s, e[0]), e[1]), e[2]), e[3])
  {
    assert e[..3][..2] == e[..2] && e[..2][..1] == e[..1] && e[..1][..0] == [];
    assert ApplyAll(s, e[..1]) == Apply(s, e[0]);
    assert ApplyAll(s, e[..2]) == Apply(ApplyAll(s, e[..1]), e[1]);
    assert ApplyAll(s, e[..3]) == Apply(ApplyAll(s, e[..2]), e[2]);
  }

  /** Two rounds, a question to the owner, an approved COUNTER, and its acceptance. */
  lemma OneCounterTooMany(s: Session, slot: Slot)
    requires Offering(s, 0, 2)
    ensures var offer := Candidates([slot]);
            var asking := Normally(AskOwner(OutsidePreferredTime, AskSlot(None, [slot])));
            var s1 := Apply(Some(s), PeerSays(2, COUNTER, offer, Normally(CounterOffer(offer))));
            var s2 := Apply(s1, PeerSays(4, COUNTER, offer, asking));
            var s3 := Apply(s2, Decided(ApproveIt, None));
            var s4 := Apply(s3, PeerSays(6, ACCEPT, Terms(AgreedSlot(slot)), Unanswered));
            s4.Some? && CounterRounds(s4.value.log) == MAX_COUNTERS && |s4.value.log| == MAX_MESSAGES
  {
    hide CounterRounds, Apply, SessionInv, PeerSays;
    var offer := Candidates([slot]);
    var asking := Normally(AskOwner(OutsidePreferredTime, AskSlot(None, [slot])));
    AnswersCounter(s, offer);
    ApplyKeepsInv(Some(s), PeerSays(2, COUNTER, offer, Normally(CounterOffer(offer))));
    var s1 := Apply(Some(s), PeerSays(2, COUNTER, offer, Normally(CounterOffer(offer)))).value;
    AsksOwner(s1, offer, OutsidePreferredTime, [slot]);
    ApplyKeepsInv(Some(s1), PeerSays(4, COUNTER, offer, asking));
    var s2 := Apply(Some(s1), PeerSays(4, COUNTER, offer, asking)).value;
    OwnerCounters(s2, [slot]);
    ApplyKeepsInv(Some(s2), Decided(ApproveIt, None));
    PeerAccepts(Apply(Some(s2), Decided(ApproveIt, None)).value, slot);
  }

  /** The bounds are met: a COUNTER that the owner approves passes no round check, and the peer
      can still accept it. */
  lemma BoundsAreTight(slot: Slot, request: Request)
    requires request.MeetingRequest?
    ensures exists events ::
              var s := ApplyAll(Some(Start(request, Candidates([slot]))), events);
              s.Some? && CounterRounds(s.value.log) == MAX_COUNTERS && |s.value.log| == MAX_MESSAGES
  {
    var offer := Candidates([slot]);
    var s0 := Start(request, offer);
    StartKeepsInv(request, offer);
    assert s0.log[..1] == [s0.log[0]] && s0.log[..1][..0] == [];
    assert Offering(s0, 0, 2);
    hide CounterRounds, Apply, ApplyAll, SessionInv, PeerSays;
    OneCounterTooMany(s0, slot);
    var asking := Normally(AskOwner(OutsidePreferredTime, AskSlot(None, [slot])));
    FourEvents(Some(s0), [
      PeerSays(2, COUNTER, offer, Normally(CounterOffer(offer))),
      PeerSays(4, COUNTER, offer, asking),
      Decided(ApproveIt, None),
      PeerSays(6, ACCEPT, Terms(AgreedSlot(slot)), Unanswered)]);
  }
}
