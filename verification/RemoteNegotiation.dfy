/** One node's side of a negotiation over the Relay: what it does with an incoming envelope, and
    what its owner's decision does. A session is a value here; the module `RemoteNode` has the node
    that updates it, and its outbox, in place. */
module RemoteNegotiation {
  import opened Types
  import opened ProtocolState
  import MeetingSchedule

  /** A text that is only stored, sent and compared. */
  datatype Text = Text(number: nat)

  const JPY := Text(0)

  /** The REQUEST's public payload. A currency of None stands for one that is absent or empty. */
  datatype Request =
    | MeetingRequest(topic: Text, duration: int)
    | CostSplitRequest(title: Text, total: real, currency: Option<Text>, deadline: Option<Text>, asked: real)

  datatype Delta =
    | NoDelta
    | Proposed(share: real)
    | Candidates(slots: seq<Slot>)
    | Terms(payload: Payload)
    | Coded(code: Code)

  /** A message as it travels and as it is logged. `request` is the payload of a REQUEST. */
  datatype Wire = Wire(sender: Side, sequence: int, kind: MessageType, request: Option<Request>, delta: Delta)

  /** What a split is about, apart from the share. */
  datatype Context = Context(title: Text, total: real, currency: Option<Text>, deadline: Option<Text>) {
    /** Whoever passes a context on fills in the currency. */
    function PassedOn(): Context {
      this.(currency := Some(OrDefault(currency)))
    }
  }

  /** What the owner is asked to approve, as the approval stores it. */
  datatype Proposal =
    | CostProposal(context: Context, share: int)
    | MeetingProposal(selected: Option<Slot>, candidates: seq<Slot>)

  /** A question put to the owner: why the agent does not decide, and what to approve. */
  datatype Question = Question(reason: Reason, proposal: Proposal)

  /** The agreed payload that a node stores: the terms in the context of the REQUEST. */
  datatype Agreement =
    | MeetingAgreement(slot: Option<Slot>)
    | CostAgreement(title: Text, total: real, currency: Text, share: int, deadline: Option<Text>)

  datatype Session = Session(
    role: Side,
    log: seq<Wire>,
    lastSequence: nat,
    status: Status,
    pending: Option<Question>,
    agreement: Option<Agreement>
  )

  /** What a domain wants its owner to approve. */
  datatype Ask = AskShare(share: int) | AskSlot(selected: Option<Slot>, candidates: seq<Slot>)

  /** A domain's answer to a PROPOSE or COUNTER. */
  datatype Reply =
    | AskOwner(reason: Reason, ask: Ask)
    | AutoAccept(payload: Payload)
    | Decline(reason: Reason)
    | CounterOffer(delta: Delta)

  /** How processing an admissible message goes: with the reply that a PROPOSE or COUNTER calls
      for; with an error that rolls everything back; or logged without a reply, because none is
      called for or because an error follows the commit made by reading a policy. */
  datatype Handling = Normally(reply: Reply) | RolledBack | Unanswered

  datatype Resolution = ApproveIt | RejectIt | ExpireIt

  function OrDefault(currency: Option<Text>): Text {
    if currency.Some? then currency.value else JPY
  }

  /** What the REQUEST says that the split is about. */
  function PublicContext(request: Request): Context
    requires request.CostSplitRequest?
  {
    Context(request.title, request.total, request.currency, request.deadline)
  }

  /** The public part of the position that a node derives for itself from the REQUEST. */
  function OwnPosition(request: Request): Context
    requires request.CostSplitRequest?
  {
    PublicContext(request).PassedOn()
  }

  function SplitAgreement(context: Context, share: int): Agreement {
    CostAgreement(context.title, context.total, OrDefault(context.currency), share, context.deadline)
  }

  /** The agreed payload of a node that hears an ACCEPT, from the terms and the request they answer.
      A meeting tolerates terms without a slot; for a split, terms without a share raise an error. */
  function AgreementOn(request: Request, terms: Delta): Option<Agreement> {
    match request
    case MeetingRequest(_, _) =>
      Some(MeetingAgreement(if terms.Terms? && terms.payload.AgreedSlot? then Some(terms.payload.slot) else None))
    case CostSplitRequest(_, _, _, _, _) =>
      if terms.Terms? && terms.payload.AgreedShare?
      then Some(SplitAgreement(PublicContext(request).PassedOn(), terms.payload.share))
      else None
  }

  /** The agreed payload of a node that accepts by itself, from its own position. */
  function AgreementByReply(request: Request, payload: Payload): Option<Agreement> {
    match request
    case MeetingRequest(_, _) =>
      if payload.AgreedSlot? then Some(MeetingAgreement(Some(payload.slot))) else None
    case CostSplitRequest(_, _, _, _, _) =>
      if payload.AgreedShare? then Some(SplitAgreement(OwnPosition(request).PassedOn(), payload.share)) else None
  }

  /** The agreed payload of a node whose owner accepts, from the stored proposal. */
  function AgreementByOwner(proposal: Proposal, terms: Delta): Option<Agreement> {
    if !terms.Terms? then None
    else
      match proposal
      case MeetingProposal(_, _) =>
        if terms.payload.AgreedSlot? then Some(MeetingAgreement(Some(terms.payload.slot))) else None
      case CostProposal(context, _) =>
        if terms.payload.AgreedShare? then Some(SplitAgreement(context.PassedOn(), terms.payload.share)) else None
  }

  /** What the approval stores: the question, and for a split the context, from the own position.
      A domain asks only about what its own requests are about. */
  function ProposalFor(request: Request, ask: Ask): Option<Proposal> {
    match (request, ask)
    case (MeetingRequest(_, _), AskSlot(selected, candidates)) => Some(MeetingProposal(selected, candidates))
    case (CostSplitRequest(_, _, _, _, _), AskShare(share)) =>
      Some(CostProposal(OwnPosition(request).PassedOn().PassedOn(), share))
    case _ => None
  }

  /** However a node comes to its agreement on the terms, it is the one that its peer comes to. */
  lemma PathsAgree(request: Request, payload: Payload, ask: Ask)
    ensures AgreementByReply(request, payload).Some? ==>
              AgreementByReply(request, payload) == AgreementOn(request, Terms(payload))
    ensures var proposal := ProposalFor(request, ask);
            proposal.Some? && AgreementByOwner(proposal.value, Terms(payload)).Some? ==>
              AgreementByOwner(proposal.value, Terms(payload)) == AgreementOn(request, Terms(payload))
  {
    if request.CostSplitRequest? {
      assert OwnPosition(request).PassedOn() == OwnPosition(request) == PublicContext(request).PassedOn();
    }
  }

  function ExhaustedCode(request: Option<Request>): Code {
    if request.Some? && request.value.MeetingRequest? then NoAvailableSlot else RoundsExhausted
  }

  function LastKind(log: seq<Wire>): Option<MessageType> {
    if log == [] then None else Some(log[|log| - 1].kind)
  }

  function CounterRounds(log: seq<Wire>): nat {
    if log == [] then 0
    else CounterRounds(log[..|log| - 1]) + if log[|log| - 1].kind == COUNTER then 1 else 0
  }

  /** The payload of the logged REQUEST. */
  function RequestPayload(log: seq<Wire>): Option<Request> {
    if log == [] then None
    else if log[0].kind == REQUEST then log[0].request
    else RequestPayload(log[1..])
  }

  /** The delta of this side's last PROPOSE or COUNTER. */
  function OwnLastOffer(log: seq<Wire>, peer: Side): Option<Delta> {
    if log == [] then None
    else
      var last := log[|log| - 1];
      if last.kind in {PROPOSE, COUNTER} && last.sender != peer then Some(last.delta)
      else OwnLastOffer(log[..|log| - 1], peer)
  }

  /** Logs a message and moves the session's sequence to it. */
  function Record(s: Session, w: Wire): Session
    requires w.sequence >= 0
  {
    s.(log := s.log + [w], lastSequence := w.sequence)
  }

  /** Logs this side's next message. */
  function Say(s: Session, kind: MessageType, delta: Delta): Session {
    Record(s, Wire(s.role, s.lastSequence + 1, kind, None, delta))
  }

  /** Ends the session with the ACCEPT that `logged` has just logged; when there is no agreement to
      be had from the terms, an error leaves the session at `before`. */
  function Conclude(before: Session, logged: Session, agreement: Option<Agreement>): Session {
    if agreement.None? then before
    else logged.(status := Agreed, agreement := if logged.agreement.Some? then logged.agreement else agreement)
  }

  /** Asks the owner. */
  function Consult(s: Session, reason: Reason, ask: Ask): Session {
    var request := RequestPayload(s.log);
    var proposal := if request.Some? then ProposalFor(request.value, ask) else None;
    if proposal.None? then s
    else s.(status := WaitingApproval, pending := Some(Question(reason, proposal.value)))
  }

  function AcceptedByReply(log: seq<Wire>, payload: Payload): Option<Agreement> {
    var request := RequestPayload(log);
    if request.Some? then AgreementByReply(request.value, payload) else None
  }

  function AcceptedByPeer(log: seq<Wire>, terms: Delta): Option<Agreement> {
    var request := RequestPayload(log);
    if request.Some? then AgreementOn(request.value, terms) else None
  }

  /** The answer to a PROPOSE or COUNTER that has just been logged. */
  function React(s: Session, reply: Reply): Session {
    var rounds := CounterRounds(s.log) + 1;
    match reply
    case AskOwner(reason, ask) => Consult(s, reason, ask)
    case AutoAccept(payload) => Conclude(s, Say(s, ACCEPT, Terms(payload)), AcceptedByReply(s.log, payload))
    case Decline(reason) => Say(s, REJECT, Coded(Because(reason))).(status := Failed)
    case CounterOffer(delta) =>
      if rounds < MAX_COUNTER_ROUNDS
      then Say(s, COUNTER, delta)
      else Say(s, ERROR, Coded(ExhaustedCode(RequestPayload(s.log)))).(status := Failed)
  }

  /** Why the state machine refuses a message in this session, if it does. */
  function Refused(s: Option<Session>, w: Wire): Option<Refusal> {
    match s
    case None => ValidateIncoming(Open, 0, w.kind, w.sequence, None, 0)
    case Some(session) =>
      ValidateIncoming(session.status, session.lastSequence, w.kind, w.sequence,
                       LastKind(session.log), CounterRounds(session.log))
  }

  /** One envelope: refused messages, and those that do not come from the session's peer, leave
      no trace. */
  function Receive(s: Option<Session>, w: Wire, handling: Handling): Option<Session> {
    if Refused(s, w).Some? || handling.RolledBack? then s
    else if s.None? then
      if w.request.None? || w.sender != Initiator then None
      else Some(Session(Responder, [w], w.sequence, Open, None, None))
    else if w.sender == s.value.role then s
    else Some(Process(s.value, w, handling))
  }

  function Process(s: Session, w: Wire, handling: Handling): Session
    requires w.sequence >= 0
  {
    var recorded := Record(s, w);
    match w.kind
    case PROPOSE => if handling.Normally? then React(recorded, handling.reply) else recorded
    case COUNTER => if handling.Normally? then React(recorded, handling.reply) else recorded
    case ACCEPT => Conclude(s, recorded, AcceptedByPeer(recorded.log, w.delta))
    case _ => recorded.(status := Failed)
  }

  /** The message that an owner's decision sends, or None when the selection is refused. An
      override replaces the share, or selects one of the candidate slots; a slot that the peer
      has not offered goes out as a COUNTER. */
  function ApprovalReply(proposal: Proposal, resolution: Resolution, override: Option<Payload>)
    : Option<(MessageType, Delta)>
  {
    if resolution != ApproveIt then
      Some((REJECT, Coded(if resolution == RejectIt then HumanRejected else ApprovalExpired)))
    else
      match proposal
      case CostProposal(_, share) =>
        if override.Some? && !override.value.AgreedShare? then None
        else Some((ACCEPT, Terms(AgreedShare(if override.Some? then override.value.share else share))))
      case MeetingProposal(selected, candidates) =>
        if override.None? then
          if selected.Some? then Some((ACCEPT, Terms(AgreedSlot(selected.value))))
          else Some((COUNTER, Candidates(Take(candidates, MeetingSchedule.OFFER_SIZE))))
        else if !override.value.AgreedSlot? || override.value.slot !in candidates then None
        else if selected == Some(override.value.slot) then Some((ACCEPT, Terms(override.value)))
        else Some((COUNTER, Candidates([override.value.slot])))
  }

  /** The owner's decision, or the expiry of the time to take it. It is refused unless the
      session waits for it; an approved COUNTER reopens the session, with no round check. */
  function Resolve(s: Session, resolution: Resolution, override: Option<Payload>): Session {
    if s.status != WaitingApproval || s.pending.None? then s
    else
      match ApprovalReply(s.pending.value.proposal, resolution, override)
      case None => s
      case Some((kind, delta)) =>
        var said := Say(s, kind, delta).(pending := None);
        if kind == ACCEPT then Conclude(s, said, AgreementByOwner(s.pending.value.proposal, delta))
        else if kind == COUNTER then said.(status := Open)
        else said.(status := Failed)
  }

  /** The initiator's session after REQUEST and PROPOSE have been logged and queued. */
  function Start(request: Request, proposed: Delta): Session {
    Session(
      Initiator,
      [Wire(Initiator, 1, REQUEST, Some(request), NoDelta), Wire(Initiator, 2, PROPOSE, None, proposed)],
      2, Open, None, None)
  }
}
