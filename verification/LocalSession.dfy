/** A local session, the approval it may wait for, and the parts that every local driver uses:
    numbering messages, saving an agreement, escalating to the owner, resolving. */
module LocalSession {
  import opened Types

  datatype Delta =
    | NoDelta
    | ProposedShare(share: int)
    | CandidateSlots(slots: seq<Slot>)
    | Accepted(payload: Payload)
    | Coded(code: Code)
    | Escalated(reason: Reason)

  datatype Message = Message(sequence: int, sender: Side, kind: MessageType, delta: Delta)

  datatype ApprovalStatus = Pending | Approved | Rejected | Expired

  datatype Failure = AlreadyExpired | InvalidStateTransition

  class Approval {
    const decider: Side
    const payload: Payload
    const reason: Reason
    const expiresAt: int
    var status: ApprovalStatus

    constructor (decider: Side, payload: Payload, reason: Reason, expiresAt: int)
      ensures this.decider == decider && this.payload == payload && this.reason == reason
      ensures this.expiresAt == expiresAt && status == Pending
    {
      this.decider, this.payload, this.reason, this.expiresAt := decider, payload, reason, expiresAt;
      status := Pending;
    }

    /** A pending approval past its deadline becomes expired; any other is left as it is. */
    method ExpireIfNeeded(now: int) returns (expired: bool)
      modifies this`status
      ensures expired <==> old(status) == Pending && expiresAt <= now
      ensures status == if expired then Expired else old(status)
    {
      expired := status == Pending && expiresAt <= now;
      if expired {
        status := Expired;
      }
    }

    /** An approval leaves `Pending` at most once. */
    method Resolve(approve: bool, now: int) returns (refused: Option<Failure>)
      modifies this`status
      ensures old(status) == Pending && now < expiresAt ==>
                refused.None? && status == (if approve then Approved else Rejected)
      ensures old(status) == Pending && expiresAt <= now ==>
                refused == Some(AlreadyExpired) && status == Expired
      ensures old(status) != Pending ==>
                refused == Some(if status == Expired then AlreadyExpired else InvalidStateTransition)
                && status == old(status)
    {
      var _ := ExpireIfNeeded(now);
      if status != Pending {
        return Some(if status == Expired then AlreadyExpired else InvalidStateTransition);
      }
      status := if approve then Approved else Rejected;
      refused := None;
    }
  }

  /** The messages carry the numbers 1..n, in order. */
  ghost predicate Numbered(messages: seq<Message>) {
    forall i :: 0 <= i < |messages| ==> messages[i].sequence == i + 1
  }

  /** One message has been added, with the next number. */
  predicate Adds(before: seq<Message>, after: seq<Message>, sender: Side, kind: MessageType, delta: Delta) {
    after == before + [Message(|before| + 1, sender, kind, delta)]
  }

  /** The message that resolving an approval adds to the session. */
  function Resolution(sequence: int, decider: Side, payload: Payload, approval: ApprovalStatus): Message {
    if approval == Approved then Message(sequence, decider, ACCEPT, Accepted(payload))
    else Message(sequence, decider, REJECT, Coded(if approval == Expired then ApprovalExpired else ApprovalRejected))
  }

  class Session {
    var status: Status
    var messages: seq<Message>
    var pending: Approval?
    var agreements: seq<Payload>
    var failure: Option<Code>

    constructor ()
      ensures Fresh()
    {
      status, messages, pending, agreements, failure := Open, [], null, [], None;
    }

    predicate Fresh()
      reads this
    {
      status == Open && messages == [] && pending == null && agreements == [] && failure == None
    }

    /** What holds of a session between any two calls. */
    ghost predicate Valid()
      reads this
    {
      && Numbered(messages)
      && |agreements| <= 1
      && (status == Agreed <==> |agreements| == 1)
      && (status == WaitingApproval <==> pending != null)
      && (status == Failed <==> failure.Some?)
    }

    /** `Valid`, and the approval that the session waits for has not been resolved. */
    ghost predicate Settled()
      reads this, pending
    {
      Valid() && (pending != null ==> pending.status == Pending)
    }

    method AppendMessage(sender: Side, kind: MessageType, delta: Delta)
      modifies this`messages
      ensures messages == old(messages) + [Message(|old(messages)| + 1, sender, kind, delta)]
    {
      messages := messages + [Message(|messages| + 1, sender, kind, delta)];
    }

    /** Saves the agreement, unless the session already has one. */
    method CreateAgreement(payload: Payload)
      modifies this`agreements
      ensures agreements == if old(agreements) != [] then old(agreements) else [payload]
    {
      if agreements == [] {
        agreements := [payload];
      }
    }

    method Agree(sender: Side, payload: Payload)
      requires Valid() && status == Open
      modifies this
      ensures Settled() && status == Agreed && pending == null && agreements == [payload]
      ensures messages == old(messages) + [Message(|old(messages)| + 1, sender, ACCEPT, Accepted(payload))]
    {
      AppendMessage(sender, ACCEPT, Accepted(payload));
      status := Agreed;
      CreateAgreement(payload);
    }

    method Fail(sender: Side, kind: MessageType, code: Code)
      requires Valid() && status == Open
      modifies this
      ensures Settled() && status == Failed && failure == Some(code) && agreements == []
      ensures messages == old(messages) + [Message(|old(messages)| + 1, sender, kind, Coded(code))]
    {
      AppendMessage(sender, kind, Coded(code));
      status, failure := Failed, Some(code);
    }

    /** The party whose turn it is hands the decision to its owner. */
    method CreateNegotiationApproval(decider: Side, payload: Payload, reason: Reason, expiresAt: int)
      requires Valid() && status == Open
      modifies this
      ensures Settled() && status == WaitingApproval && fresh(pending) && agreements == []
      ensures pending.decider == decider && pending.payload == payload && pending.reason == reason
      ensures pending.expiresAt == expiresAt
      ensures messages == old(messages) + [Message(|old(messages)| + 1, decider, REQUEST_APPROVAL, Escalated(reason))]
    {
      pending := new Approval(decider, payload, reason, expiresAt);
      status := WaitingApproval;
      AppendMessage(decider, REQUEST_APPROVAL, Escalated(reason));
    }

    /** Reflects a resolved approval in the session that waits for it; any other approval, and
        any later call with the same one, changes nothing. */
    method OnApprovalResolved(approval: Approval)
      requires Valid()
      requires pending == approval ==> approval.status != Pending
      modifies this
      ensures Settled() || pending == old(pending)
      ensures old(pending) != approval ==>
                status == old(status) && messages == old(messages) && pending == old(pending)
                && agreements == old(agreements) && failure == old(failure)
      ensures old(pending) == approval ==>
                && Settled() && pending == null
                && messages == old(messages) + [Resolution(|old(messages)| + 1, approval.decider, approval.payload,
                     approval.status)]
                && (approval.status == Approved ==> status == Agreed && agreements == [approval.payload])
                && (approval.status != Approved ==> status == Failed && agreements == [])
                && (approval.status == Expired ==> failure == Some(ApprovalExpired))
                && (approval.status == Rejected ==> failure == Some(ApprovalRejected))
    {
      if pending != approval || status != WaitingApproval {
        return;
      }
      var message := Resolution(|messages| + 1, approval.decider, approval.payload, approval.status);
      AppendMessage(message.sender, message.kind, message.delta);
      if approval.status == Approved {
        status := Agreed;
        CreateAgreement(approval.payload);
      } else {
        status, failure := Failed, Some(message.delta.code);
      }
      pending := null;
    }

    /** Looking at an approval: one that is past its deadline expires, and the session with it. */
    method LookAt(approval: Approval, now: int)
      requires Settled()
      modifies this, approval`status
      ensures Settled()
      ensures old(approval.status) == Pending && approval.expiresAt <= now ==> approval.status == Expired
      ensures !(old(approval.status) == Pending && approval.expiresAt <= now) ==>
                approval.status == old(approval.status)
      ensures old(pending) == approval && approval.expiresAt <= now ==>
                && status == Failed && pending == null && agreements == []
                && messages == old(messages) + [Resolution(|old(messages)| + 1, approval.decider, approval.payload,
                     Expired)]
      ensures old(pending) == approval && approval.expiresAt <= now ==>
                && failure == Some(ApprovalExpired)
                && Adds(old(messages), messages, approval.decider, REJECT, Coded(ApprovalExpired))
      ensures !(old(pending) == approval && approval.expiresAt <= now) ==>
                status == old(status) && messages == old(messages) && pending == old(pending)
                && agreements == old(agreements) && failure == old(failure)
    {
      var expired := approval.ExpireIfNeeded(now);
      if expired {
        OnApprovalResolved(approval);
      }
    }

    /** The approve and reject endpoints: the owner's decision takes effect once, and a refused
        one takes none. */
    method ResolveApproval(approval: Approval, approve: bool, now: int) returns (refused: Option<Failure>)
      requires Settled()
      modifies this, approval`status
      ensures Settled()
      ensures old(approval.status) == Pending ==>
                approval.status == if approval.expiresAt <= now then Expired else if approve then Approved else Rejected
      ensures old(approval.status) != Pending ==>
                approval.status == old(approval.status) && refused.Some? && status == old(status)
                  && messages == old(messages)
                && pending == old(pending) && agreements == old(agreements)
      ensures old(approval.status) == Pending && old(pending) == approval ==>
                && (refused.Some? <==> approval.expiresAt <= now)
                && (status == Agreed <==> approve && now < approval.expiresAt)
                && (status == Failed <==> !(approve && now < approval.expiresAt))
                && pending == null
                && (status == Agreed ==> agreements == [approval.payload])
                && messages == old(messages) + [Resolution(|old(messages)| + 1, approval.decider, approval.payload,
                     approval.status)]
      ensures old(approval.status) == Pending && old(pending) == approval && approval.expiresAt <= now ==>
                && failure == Some(ApprovalExpired)
                && Adds(old(messages), messages, approval.decider, REJECT, Coded(ApprovalExpired))
      ensures old(approval.status) == Pending && old(pending) == approval && now < approval.expiresAt && !approve ==>
                && failure == Some(ApprovalRejected)
                && Adds(old(messages), messages, approval.decider, REJECT, Coded(ApprovalRejected))
      ensures old(approval.status) == Pending && old(pending) == approval && now < approval.expiresAt && approve ==>
                Adds(old(messages), messages, approval.decider, ACCEPT, Accepted(approval.payload))
      ensures old(pending) != approval ==>
                status == old(status) && messages == old(messages) && pending == old(pending)
                && agreements == old(agreements)
    {
      var wasPending := approval.status == Pending;
      refused := approval.Resolve(approve, now);
      if wasPending {
        OnApprovalResolved(approval);
      }
    }
  }
}
