/** The admissible-message state machine of a remote session. */
module ProtocolState {
  import opened Types

  const MAX_COUNTER_ROUNDS := 3

  datatype Refusal = SessionEnded | AwaitingApproval | SequenceGap | WrongOrder | TooManyCounters

  /** What may follow a message; nothing yet (`None`) admits only a REQUEST. */
  function AllowedAfter(last: Option<MessageType>): set<MessageType> {
    match last
    case None => {REQUEST}
    case Some(REQUEST) => {PROPOSE, REJECT, ERROR}
    case Some(PROPOSE) => {ACCEPT, COUNTER, REJECT, ERROR}
    case Some(COUNTER) => {ACCEPT, COUNTER, REJECT, ERROR}
    case Some(REQUEST_APPROVAL) => {REJECT, ERROR}
    case Some(_) => {}
  }

  /** Why an incoming message is refused, if it is; the checks are made in this order. */
  function ValidateIncoming(status: Status, lastSequence: nat, kind: MessageType, sequence: int,
                            lastKind: Option<MessageType>, counterRounds: nat): Option<Refusal> {
    if status.Terminal() then Some(SessionEnded)
    else if status == WaitingApproval && kind !in {REJECT, ERROR} then Some(AwaitingApproval)
    else if sequence != lastSequence + 1 then Some(SequenceGap)
    else if kind !in AllowedAfter(lastKind) then Some(WrongOrder)
    else if kind == COUNTER && counterRounds >= MAX_COUNTER_ROUNDS then Some(TooManyCounters)
    else None
  }
}
