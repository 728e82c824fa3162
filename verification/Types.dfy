/** Vocabulary shared by the local drivers and the remote protocol. */
module Types {
  datatype Option<+T> = None | Some(value: T)

  /** The two parties of a bilateral negotiation. */
  datatype Side = Initiator | Responder {
    function Other(): Side {
      if Initiator? then Responder else Initiator
    }
  }

  datatype Status = Open | WaitingApproval | Agreed | Failed {
    predicate Terminal() {
      Agreed? || Failed?
    }
  }

  datatype MessageType = REQUEST | PROPOSE | COUNTER | ACCEPT | REJECT | ERROR | REQUEST_APPROVAL

  /** A meeting slot. `start` and `end` are instants, in minutes; `offset` is the UTC offset
      of the rendering, so that two slots can denote the same time without being equal. */
  datatype Slot = Slot(start: int, end: int, offset: int)

  /** Internal reason codes, for guards, escalations and rejections. */
  datatype Reason =
    | NotDelegated
    | ConfidenceBelowThreshold
    | RelationshipRequiresApproval
    | AutoAcceptDisabled
    | OutsidePreferredTime
    | TimeAvoided
    | ShareExceedsReservation
    | ShareExceedsLimit
    | ShareBelowReservation
    | NoZoneOfAgreement
    | NoAgreementWithinRounds

  /** Codes carried by a REJECT or ERROR. */
  datatype Code =
    | Because(reason: Reason)
    | NoAvailableSlot
    | RoundsExhausted
    | HumanRejected
    | ApprovalRejected
    | ApprovalExpired

  /** What the parties agree on. */
  datatype Payload = AgreedShare(share: int) | AgreedSlot(slot: Slot)

  /** The first `n` elements, or all of them. */
  function Take<T>(s: seq<T>, n: nat): seq<T> {
    if |s| <= n then s else s[..n]
  }

  function Min(x: real, y: real): real {
    if x <= y then x else y
  }

  function Max(x: real, y: real): real {
    if x >= y then x else y
  }
}
