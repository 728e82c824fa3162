/** `run_cost_split_negotiation`: the loop over a session, against the function `Negotiate`. */
module CostSplitDriver {
  import opened Types
  import opened Money
  import opened CostSplitStrategy
  import opened CostSplit
  import opened LocalSession
  import CostSplitProperties

  /** The COUNTER messages of a run; the REQUEST before them has number 1. */
  function CounterMessages(counters: seq<int>): (messages: seq<Message>)
    ensures |messages| == |counters|
  {
    seq(|counters|, i requires 0 <= i < |counters| =>
      Message(i + 2, Turn(i + 1), COUNTER, ProposedShare(counters[i])))
  }

  /** The messages before the closing one. */
  function Opened(counters: seq<int>): seq<Message> {
    [Message(1, Initiator, REQUEST, NoDelta)] + CounterMessages(counters)
  }

  function ClosingMessage(r: Run): seq<Message> {
    var sequence := |r.counters| + 2;
    match r.ending
    case Agreement(decider, share) => [Message(sequence, decider, ACCEPT, Accepted(AgreedShare(share)))]
    case Escalation(decider, reason, _) => [Message(sequence, decider, REQUEST_APPROVAL, Escalated(reason))]
    case Rejection(decider, reason) => [Message(sequence, decider, REJECT, Coded(Because(reason)))]
    case LeftOpen => []
  }

  /** The session's messages after a run. */
  function Transcript(r: Run): seq<Message> {
    Opened(r.counters) + ClosingMessage(r)
  }

  /** A finished run has left a session in this state. */
  ghost predicate Records(s: Session, r: Run)
    reads s, s.pending
  {
    && s.messages == Transcript(r)
    && match r.ending
       case Agreement(_, share) => s.status == Agreed && s.agreements == [AgreedShare(share)]
       case Escalation(decider, reason, share) =>
         && s.status == WaitingApproval && s.pending != null
         && s.pending.decider == decider && s.pending.reason == reason && s.pending.payload == AgreedShare(share)
       case Rejection(_, reason) => s.status == Failed && s.failure == Some(Because(reason))
       case LeftOpen => s.status == Open
  }

  method RunCostSplit(s: Session, d: Deal, limit: nat, expiresAt: int)
    requires s.Fresh()
    modifies s
    ensures s.Settled() && (s.pending != null ==> fresh(s.pending) && s.pending.expiresAt == expiresAt)
    ensures Records(s, Negotiate(d, limit))
    ensures limit >= 1 ==> s.status != Open
  {
    hide Move, NextAction, Portion, Round;
    CostSplitProperties.NeverLeftOpen(d, limit);
    s.AppendMessage(Initiator, REQUEST, NoDelta);
    var offer := d.Ask();
    assert CounterMessages([]) == [];
    if 0 in d.guards {
      s.CreateNegotiationApproval(Responder, AgreedShare(offer), d.guards[0], expiresAt);
      return;
    }
    if d.Floor() > d.Ceiling() {
      if offer as real <= d.responder.maxNegotiable || 0 in d.highValue {
        s.CreateNegotiationApproval(Responder, AgreedShare(offer), NoZoneOfAgreement, expiresAt);
      } else {
        s.Fail(Responder, REJECT, Because(ShareExceedsLimit));
      }
      return;
    }
    Alternate(s, d, limit, expiresAt);
  }

  /** The alternating offers themselves. */
  method Alternate(s: Session, d: Deal, limit: nat, expiresAt: int)
    requires s.Valid() && s.status == Open && s.messages == Opened([])
    modifies s
    ensures s.Settled() && (s.pending != null ==> fresh(s.pending) && s.pending.expiresAt == expiresAt)
    ensures Records(s, Play(d, limit, []))
  {
    hide Move, NextAction, Portion, Round, CounterMessages;
    var offer := d.Ask();
    var standing, mineI, mineR, turn := offer, Some(offer), None, Responder;
    ghost var counters: seq<int> := [];
    for round := 1 to limit + 1
      invariant |counters| == round - 1 && turn == Turn(round)
      invariant standing == Standing(d, counters)
      invariant OwnLast(d, counters) == AsReal(if turn == Responder then mineR else mineI)
      invariant counters != [] ==> Some(standing) == if turn == Responder then mineI else mineR
      invariant counters == [] ==> mineI == Some(standing)
      invariant Play(d, limit, counters) == Play(d, limit, [])
      invariant s.Valid() && s.status == Open
      invariant s.messages == Opened(counters)
    {
      if round in d.guards {
        s.CreateNegotiationApproval(turn, AgreedShare(standing), d.guards[round], expiresAt);
        return;
      }
      var mine := if turn == Responder then mineR else mineI;
      var action := NextAction(d.Profile(turn), turn, d.total, offer as real,
                               Offer(standing, AsReal(mine)), round in d.highValue);
      assert action == Move(d, counters) by { MoveUnfolds(d, counters); }
      if action.Counter? && round == limit {
        action := Escalate(NoAgreementWithinRounds);
      }
      if !action.Counter? {
        Conclude(s, action, turn, standing, expiresAt);
        return;
      }
      if turn == Responder { mineR := Some(action.amount); } else { mineI := Some(action.amount); }
      standing := action.amount;
      s.AppendMessage(turn, COUNTER, ProposedShare(standing));
      CounterMessagesGrow(counters, standing);
      counters := counters + [standing];
      turn := turn.Other();
    }
  }

  /** The ending that an action other than a counter brings about. */
  function EndingOf(action: Action, turn: Side, standing: int): Ending
    requires !action.Counter?
  {
    match action
    case Accept(amount) => Agreement(turn, amount)
    case Escalate(reason) => Escalation(turn, reason, standing)
    case Reject(reason) => Rejection(turn, reason)
  }

  method Conclude(s: Session, action: Action, turn: Side, standing: int, expiresAt: int)
    requires s.Valid() && s.status == Open && !action.Counter?
    modifies s
    ensures s.Settled() && s.status != Open && (s.pending != null ==>
              fresh(s.pending) && s.pending.expiresAt == expiresAt)
    ensures forall r: Run ::
              r.ending == EndingOf(action, turn, standing) && old(s.messages) == Opened(r.counters) ==> Records(s, r)
  {
    match action {
      case Accept(amount) => s.Agree(turn, AgreedShare(amount));
      case Escalate(reason) => s.CreateNegotiationApproval(turn, AgreedShare(standing), reason, expiresAt);
      case Reject(reason) => s.Fail(turn, REJECT, Because(reason));
    }
  }

  lemma CounterMessagesGrow(counters: seq<int>, x: int)
    ensures CounterMessages(counters + [x])
         == CounterMessages(counters) + [Message(|counters| + 2, Turn(|counters| + 1), COUNTER, ProposedShare(x))]
  {
  }

  function AsReal(x: Option<int>): Option<real> {
    if x.Some? then Some(x.value as real) else None
  }

  lemma MoveUnfolds(d: Deal, counters: seq<int>)
    ensures var round := |counters| + 1;
            Move(d, counters) == NextAction(d.Profile(Turn(round)), Turn(round), d.total, d.Ask() as real,
                                            Offer(Standing(d, counters), OwnLast(d, counters)), round in d.highValue)
  {
  }
}
