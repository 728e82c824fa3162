/** `cost.split` message by message: two nodes over a Relay that loses nothing do what the local
    driver does in one loop. */
module RemoteCostSplit {
  import opened Types
  import opened Money
  import opened CostSplitStrategy
  import opened CostSplit
  import opened ProtocolState
  import opened RemoteNegotiation
  import opened TwoNodes
  import opened LossFreeRelay
  import CostSplitProperties

  /** The domain's answer to an offer, from the node's own profile and the session's log. */
  function DecideRemoteReply(p: Profile, role: Side, limit: nat, total: real, asked: real, received: Delta,
                             ownLast: Option<Delta>, round: nat, guard: Option<Reason>, highValue: bool): Reply {
    var standing := Round(if received.Proposed? then received.share else asked);
    var mine := if ownLast.Some? && ownLast.value.Proposed? then Some(ownLast.value.share) else None;
    if guard.Some? then
      AskOwner(guard.value, AskShare(standing))
    else
      var action := NextAction(p, role, total, asked, Offer(standing, mine), highValue);
      match if action.Counter? && round >= limit then Escalate(NoAgreementWithinRounds) else action
      case Accept(amount) => AutoAccept(AgreedShare(amount))
      case Counter(amount) => RemoteNegotiation.CounterOffer(Proposed(amount as real))
      case Escalate(reason) => AskOwner(reason, AskShare(standing))
      case Reject(reason) => Decline(reason)
  }

  function RequestOf(d: Deal): Request {
    CostSplitRequest(Text(0), d.total, None, None, d.asked)
  }

  /** What both nodes, and what either owner is asked, say that the split is about. */
  function ContextOf(d: Deal): Context {
    Context(Text(0), d.total, Some(JPY), None)
  }

  function ReplyTo(d: Deal, limit: nat, role: Side, log: seq<Wire>, received: Wire): Reply {
    var round := CounterRounds(log) + 1;
    DecideRemoteReply(d.Profile(role), role, limit, d.total, d.asked, received.delta,
                      OwnLastOffer(log, received.sender), round,
                      if round in d.guards then Some(d.guards[round]) else None, round in d.highValue)
  }

  /** Each side answers from its own profile. */
  function Answers(d: Deal, limit: nat): Answer {
    (role, log, received) => Normally(ReplyTo(d, limit, role, log, received))
  }

  /** The initiator's node starts only what its owner has delegated. */
  function Started(d: Deal): System {
    if d.delegatedAtStart then Next(NOTHING, StartNegotiation(RequestOf(d), Proposed(d.asked))) else NOTHING
  }

  /** The distributed negotiation after n deliveries. */
  function LossFree(d: Deal, limit: nat, n: nat): System {
    Deliveries(Answers(d, limit), Started(d), n)
  }

  function CounterWire(index: nat, amount: int): Wire {
    Wire(Turn(index + 1), index + 3, COUNTER, None, Proposed(amount as real))
  }

  /** The log once these counters have been made. */
  function LogOf(d: Deal, counters: seq<int>): (log: seq<Wire>)
    ensures |log| == |counters| + 2
  {
    if counters == [] then Start(RequestOf(d), Proposed(d.asked)).log
    else
      var n := |counters| - 1;
      LogOf(d, counters[..n]) + [CounterWire(n, counters[n])]
  }

  /** The offer that stands has been sent and not been delivered yet. */
  predicate AtRound(sys: System, d: Deal, counters: seq<int>) {
    var log := LogOf(d, counters);
    var mover := Turn(|counters| + 1);
    && sys.Node(mover) == Some(OpenSession(mover, log[..|log| - 1]))
    && sys.Node(mover.Other()) == Some(OpenSession(mover.Other(), log))
  }

  /** The session that a finished run leaves on one side. */
  function FinalSession(d: Deal, r: Run, side: Side): Session
    requires !r.ending.LeftOpen?
  {
    var log := LogOf(d, r.counters);
    match r.ending
    case Agreement(decider, share) =>
      var terms := Terms(AgreedShare(share));
      Session(side, log + [Wire(decider, |log| + 1, ACCEPT, None, terms)], |log| + 1, Agreed, None,
        AgreementOn(RequestOf(d), terms))
    case Rejection(decider, reason) =>
      Session(side, log + [Wire(decider, |log| + 1, REJECT, None, Coded(Because(reason)))], |log| + 1, Failed, None,
        None)
    case Escalation(decider, reason, share) =>
      if side == decider
      then Session(side, log, |log|, WaitingApproval, Some(Question(reason, CostProposal(ContextOf(d), share))), None)
      else OpenSession(side, log)
  }

  /** Both nodes hold what the run says: the same counters, the same ending. */
  predicate Mirrors(sys: System, d: Deal, r: Run) {
    && !r.ending.LeftOpen?
    && sys.initiator == Some(FinalSession(d, r, Initiator))
    && sys.responder == Some(FinalSession(d, r, Responder))
  }

  lemma LogGrows(d: Deal, counters: seq<int>, x: int)
    ensures LogOf(d, counters + [x]) == LogOf(d, counters) + [CounterWire(|counters|, x)]
  {
    assert (counters + [x])[..|counters|] == counters;
  }

  lemma {:induction false} LogFacts(d: Deal, counters: seq<int>)
    ensures CounterRounds(LogOf(d, counters)) == |counters|
    ensures RequestPayload(LogOf(d, counters)) == Some(RequestOf(d))
    ensures LogOf(d, counters)[0].kind == REQUEST && LogOf(d, counters)[0].request == Some(RequestOf(d))
  {
    var log := LogOf(d, counters);
    if counters == [] {
      assert log == [log[0], log[1]] && log[..1] == [log[0]] && log[..1][..0] == [];
      assert CounterRounds(log[..1]) == 0;
    } else {
      LogFacts(d, counters[..|counters| - 1]);
      assert log[..|log| - 1] == LogOf(d, counters[..|counters| - 1]);
    }
  }

  /** The last message of the log: the offer that stands. */
  function LastOf(d: Deal, counters: seq<int>): Wire {
    LogOf(d, counters)[|counters| + 1]
  }

  /** The opening of the negotiation on the wire, and in cents from the first counter on. */
  function StandingDelta(d: Deal, counters: seq<int>): Delta {
    Proposed(if counters == [] then d.asked else counters[|counters| - 1] as real)
  }

  lemma LastOfIs(d: Deal, counters: seq<int>)
    ensures var w := LastOf(d, counters);
            && w.sender == Turn(|counters| + 1).Other() && w.sequence == |counters| + 2
            && w.kind == (if counters == [] then PROPOSE else COUNTER) && w.delta == StandingDelta(d, counters)
  {
    if counters != [] {
      LogGrows(d, counters[..|counters| - 1], counters[|counters| - 1]);
    }
  }

  /** A node finds its own last offer in the log, two messages back. */
  lemma OwnLastIs(d: Deal, counters: seq<int>)
    ensures OwnLastOffer(LogOf(d, counters), LastOf(d, counters).sender)
         == if counters == [] then None else Some(StandingDelta(d, counters[..|counters| - 1]))
  {
    var log := LogOf(d, counters);
    var peer := LastOf(d, counters).sender;
    LastOfIs(d, counters);
    if counters == [] {
      assert log[..1] == [log[0]];
      assert OwnLastOffer(log[..1], peer) == OwnLastOffer(log[..1][..0], peer) == None;
    } else {
      var before := counters[..|counters| - 1];
      assert log[..|log| - 1] == LogOf(d, before);
      LastOfIs(d, before);
    }
  }

  /** The local driver's move, as an answer. */
  function LocalReply(d: Deal, limit: nat, counters: seq<int>): Reply {
    var round := |counters| + 1;
    var standing := AskShare(Standing(d, counters));
    if round in d.guards then AskOwner(d.guards[round], standing)
    else
      match CapAtLimit(Move(d, counters), round, limit)
      case Accept(x) => AutoAccept(AgreedShare(x))
      case Counter(x) => RemoteNegotiation.CounterOffer(Proposed(x as real))
      case Escalate(reason) => AskOwner(reason, standing)
      case Reject(reason) => Decline(reason)
  }

  /** The distributed answer is the local driver's move, for an opening in whole cents; round 1
      reads the opening only after rounding it. */
  lemma ReplyIsMove(d: Deal, limit: nat, counters: seq<int>)
    requires (IsCents(d.asked) || counters == []) && |counters| < limit
    ensures ReplyTo(d, limit, Turn(|counters| + 1), LogOf(d, counters), LastOf(d, counters))
         == LocalReply(d, limit, counters)
  {
    hide Portion;
    LogFacts(d, counters);
    LastOfIs(d, counters);
    OwnLastIs(d, counters);
    RoundFixesCents(Standing(d, counters));
    hide Round, ResponderAction, InitiatorAction;
    if counters == [] {
      assert Turn(1) == Responder;
    }
    assert Move(d, counters) == NextAction(d.Profile(Turn(|counters| + 1)), Turn(|counters| + 1), d.total, d.asked,
                                           Offer(Standing(d, counters), OwnLast(d, counters)),
                                             |counters| + 1 in d.highValue);
    hide NextAction;
  }

  /** The state machine lets the standing offer in, as long as the round limit is not above the
      protocol's. */
  lemma OfferAdmitted(d: Deal, counters: seq<int>)
    requires |counters| < MAX_COUNTER_ROUNDS
    ensures var log := LogOf(d, counters);
            Refused(Some(OpenSession(Turn(|counters| + 1), log[..|log| - 1])), LastOf(d, counters)).None?
  {
    var log := LogOf(d, counters);
    LastOfIs(d, counters);
    if counters == [] {
      assert CounterRounds(log[..1]) == CounterRounds(log[..1][..0]) == 0;
    } else {
      var before := counters[..|counters| - 1];
      assert log[..|log| - 1] == LogOf(d, before);
      LogFacts(d, before);
      LastOfIs(d, before);
    }
  }

  lemma OfferDelivered(sys: System, d: Deal, limit: nat, counters: seq<int>)
    requires AtRound(sys, d, counters) && |counters| < MAX_COUNTER_ROUNDS
    ensures var mover := Turn(|counters| + 1);
            var after := Delivery(Answers(d, limit), sys);
            var log := LogOf(d, counters);
            && after.Node(mover) == Some(React(OpenSession(mover, log),
                 ReplyTo(d, limit, mover, log, LastOf(d, counters))))
            && after.Node(mover.Other()) == sys.Node(mover.Other())
  {
    var mover := Turn(|counters| + 1);
    var log := LogOf(d, counters);
    var w := LastOf(d, counters);
    OfferAdmitted(d, counters);
    LastOfIs(d, counters);
    assert log[..|log| - 1] + [w] == log;
    hide React, ReplyTo, LogOf, Refused, Delivery;
    UnderwayIsDelivered(Answers(d, limit), sys, mover.Other(), log[..|log| - 1], w);
  }

  /** A counter leads to the next round. */
  lemma CounterDelivered(sys: System, d: Deal, limit: nat, counters: seq<int>, x: int)
    requires AtRound(sys, d, counters) && (IsCents(d.asked) || counters == [])
    requires |counters| + 1 < limit && |counters| + 1 < MAX_COUNTER_ROUNDS
    requires |counters| + 1 !in d.guards && Move(d, counters) == Counter(x)
    ensures AtRound(Delivery(Answers(d, limit), sys), d, counters + [x])
  {
    hide Move, Round;
    OfferDelivered(sys, d, limit, counters);
    ReplyIsMove(d, limit, counters);
    LogFacts(d, counters);
    LogGrows(d, counters, x);
    var log := LogOf(d, counters);
    assert (log + [CounterWire(|counters|, x)])[..|log|] == log;
    hide Delivery, ReplyTo, LogOf, CounterRounds;
  }

  /** The mover has said the last word, and the other node has not heard it yet. */
  predicate LastWordSaid(sys: System, d: Deal, r: Run) {
    var mover := Turn(|r.counters| + 1);
    && !r.ending.LeftOpen?
    && sys.Node(mover) == Some(FinalSession(d, r, mover))
    && sys.Node(mover.Other()) == Some(OpenSession(mover.Other(), LogOf(d, r.counters)))
  }

  /** No counter follows: this round ends the run. */
  predicate EndsHere(d: Deal, limit: nat, counters: seq<int>) {
    var round := |counters| + 1;
    round <= limit && (round in d.guards || !CapAtLimit(Move(d, counters), round, limit).Counter?)
  }

  lemma RequestStaysFirst(d: Deal, counters: seq<int>, w: Wire)
    ensures RequestPayload(LogOf(d, counters) + [w]) == Some(RequestOf(d))
  {
    LogFacts(d, counters);
  }

  /** The answer that ends the run. */
  lemma EndReacted(d: Deal, limit: nat, counters: seq<int>)
    requires EndsHere(d, limit, counters)
    ensures var mover := Turn(|counters| + 1);
            var r := Play(d, limit, counters);
            && !r.ending.LeftOpen? && r.counters == counters && EndsOnTurn(r)
            && React(OpenSession(mover, LogOf(d, counters)), LocalReply(d, limit, counters))
                 == FinalSession(d, r, mover)
  {
    hide Move, Round, LogOf, CounterRounds, RequestPayload;
    LogFacts(d, counters);
  }

  lemma EndDelivered(sys: System, d: Deal, limit: nat, counters: seq<int>)
    requires AtRound(sys, d, counters) && (IsCents(d.asked) || counters == [])
    requires EndsHere(d, limit, counters) && limit <= MAX_COUNTER_ROUNDS
    ensures EndsOnTurn(Play(d, limit, counters))
    ensures LastWordSaid(Delivery(Answers(d, limit), sys), d, Play(d, limit, counters))
  {
    hide React, LocalReply, EndsHere, LogOf, CounterRounds, Delivery, ReplyTo, Move, Round, Play, FinalSession;
    EndsHereInLimit(d, limit, counters);
    EndReacted(d, limit, counters);
    OfferDelivered(sys, d, limit, counters);
    ReplyIsMove(d, limit, counters);
  }

  lemma EndsHereInLimit(d: Deal, limit: nat, counters: seq<int>)
    requires EndsHere(d, limit, counters)
    ensures |counters| < limit
  {
  }

  predicate EndsOnTurn(r: Run) {
    var mover := Turn(|r.counters| + 1);
    match r.ending
    case Agreement(decider, _) => decider == mover
    case Escalation(decider, _, _) => decider == mover
    case Rejection(decider, _) => decider == mover
    case LeftOpen => false
  }

  /** The last word closes the other node's session too; an escalation says none. */
  lemma LastWordHeard(sys: System, d: Deal, limit: nat, r: Run)
    requires LastWordSaid(sys, d, r) && EndsOnTurn(r)
    ensures Mirrors(Delivery(Answers(d, limit), sys), d, r)
  {
    hide LogOf;
    if r.ending.Escalation? {
      assert Delivery(Answers(d, limit), sys) == sys;
    } else {
      ClosingWordHeard(sys, d, limit, r);
    }
  }

  /** What the closing word of a run makes of a session that has everything before it. */
  lemma ClosingWordProcessed(d: Deal, r: Run, side: Side, handling: Handling)
    requires !r.ending.LeftOpen? && !r.ending.Escalation?
    ensures var log := LogOf(d, r.counters);
            var final := FinalSession(d, r, side);
            && final.log == log + [final.log[|log|]] && final.log[|log|].sender == r.ending.decider
            && final.log[|log|].sequence == |log| + 1 && final.log[|log|].kind in {ACCEPT, REJECT}
            && Process(OpenSession(side, log), final.log[|log|], handling) == final
  {
    hide LogOf, RequestPayload, CounterRounds;
    RequestStaysFirst(d, r.counters, FinalSession(d, r, side).log[|LogOf(d, r.counters)|]);
  }

  lemma ClosingWordHeard(sys: System, d: Deal, limit: nat, r: Run)
    requires LastWordSaid(sys, d, r) && EndsOnTurn(r) && !r.ending.Escalation?
    ensures Mirrors(Delivery(Answers(d, limit), sys), d, r)
  {
    var mover := Turn(|r.counters| + 1);
    var log := LogOf(d, r.counters);
    LastOfIs(d, r.counters);
    assert log[|r.counters| + 1] == LastOf(d, r.counters);
    var w := FinalSession(d, r, mover.Other()).log[|log|];
    assert w == FinalSession(d, r, mover).log[|log|];
    ClosingWordProcessed(d, r, mover, Unanswered);
    ClosingWordProcessed(d, r, mover.Other(), HandlingOf(Answers(d, limit), sys.Node(mover.Other()), w));
    ClosingIsAdmitted(mover.Other(), log, w);
    hide LogOf, HandlingOf, Delivery, Process, Refused, FinalSession;
    UnderwayIsDelivered(Answers(d, limit), sys, mover, log, w);
  }

  lemma MirrorsIsQuiet(sys: System, d: Deal, limit: nat, r: Run, n: nat)
    requires Mirrors(sys, d, r)
    ensures Deliveries(Answers(d, limit), sys, n) == sys
  {
    hide LogOf;
    Quiet(Answers(d, limit), sys, n);
  }

  /** From any round on, the deliveries that are left reproduce the rest of the local run. */
  lemma {:induction false} DeliveriesFollowPlay(sys: System, d: Deal, limit: nat, counters: seq<int>, n: nat)
    requires AtRound(sys, d, counters) && (IsCents(d.asked) || (counters == [] && EndsHere(d, limit, [])))
    requires |counters| < limit <= MAX_COUNTER_ROUNDS && n >= limit - |counters| + 1
    ensures Mirrors(Deliveries(Answers(d, limit), sys, n), d, Play(d, limit, counters))
    decreases n
  {
    hide AtRound, Delivery, Mirrors, LastWordSaid, EndsOnTurn, Move;
    var round := |counters| + 1;
    var next := Delivery(Answers(d, limit), sys);
    assert Deliveries(Answers(d, limit), sys, n) == Deliveries(Answers(d, limit), next, n - 1);
    if EndsHere(d, limit, counters) {
      var r := Play(d, limit, counters);
      EndDelivered(sys, d, limit, counters);
      LastWordHeard(next, d, limit, r);
      MirrorsIsQuiet(Delivery(Answers(d, limit), next), d, limit, r, n - 2);
      assert Deliveries(Answers(d, limit), next, n - 1)
               == Deliveries(Answers(d, limit), Delivery(Answers(d, limit), next), n - 2);
    } else {
      var x := Move(d, counters).amount;
      CounterDelivered(sys, d, limit, counters, x);
      DeliveriesFollowPlay(next, d, limit, counters + [x], n - 1);
    }
  }

  /** After the REQUEST has been delivered, the opening offer stands. */
  lemma RequestDelivered(d: Deal, limit: nat)
    requires d.delegatedAtStart
    ensures AtRound(LossFree(d, limit, 1), d, [])
  {
    var start := Started(d);
    assert Delivery(Answers(d, limit), start) == Handover(Answers(d, limit), start, Initiator, 0);
    assert LossFree(d, limit, 1) == Deliveries(Answers(d, limit), Delivery(Answers(d, limit), start), 0);
    var log := LogOf(d, []);
    assert log[..1] == [log[0]];
    assert Receive(None, log[0], Unanswered) == Some(OpenSession(Responder, [log[0]]));
  }

  /** Both forms of the negotiation come to the same: same counters, same ending, up to the
      reason of an escalation that the shortcut has named. */
  ghost predicate FormsAgree(d: Deal, limit: nat, n: nat) {
    exists r :: Mirrors(LossFree(d, limit, n), d, r) && CostSplitProperties.SameCourse(r, Negotiate(d, limit))
  }

  /** The distributed form refines the loop: with no loss, and an opening in whole cents or one
      that is settled in round 1, both nodes end up with what the local driver records, provided
      that the initiator's owner has delegated cost splits at the start; otherwise there is no
      remote negotiation at all. */
  lemma DistributedRefinesLocal(d: Deal, limit: nat, n: nat)
    requires d.Valid() && d.SteadyStart() && (IsCents(d.asked) || EndsHere(d, limit, []))
    requires 1 <= limit <= MAX_COUNTER_ROUNDS && n >= limit + 2
    ensures FormsAgree(d, limit, n) <==> d.delegatedAtStart
  {
    hide Mirrors, Move, Round, AtRound, Delivery;
    if d.delegatedAtStart {
      var r := Play(d, limit, []);
      RequestDelivered(d, limit);
      AfterRequest(d, limit, n - 1);
      DeliveriesFollowPlay(LossFree(d, limit, 1), d, limit, [], n - 1);
      CostSplitProperties.ShortcutPreservesMeaning(d, limit);
      assert r == NegotiateWithoutShortcut(d, limit);
    } else {
      NothingWithoutStart(d, limit, n);
    }
  }

  /** Without the delegation no node has a session, whatever the local driver does. */
  lemma NothingWithoutStart(d: Deal, limit: nat, n: nat)
    requires !d.delegatedAtStart
    ensures LossFree(d, limit, n) == NOTHING && !FormsAgree(d, limit, n)
  {
    Quiet(Answers(d, limit), NOTHING, n);
    hide LossFree, Negotiate, LogOf;
  }

  lemma AfterRequest(d: Deal, limit: nat, n: nat)
    ensures LossFree(d, limit, n + 1) == Deliveries(Answers(d, limit), LossFree(d, limit, 1), n)
  {
    var start := Started(d);
    assert LossFree(d, limit, n + 1) == Deliveries(Answers(d, limit), Delivery(Answers(d, limit), start), n);
    assert LossFree(d, limit, 1) == Deliveries(Answers(d, limit), Delivery(Answers(d, limit), start), 0);
  }
}
