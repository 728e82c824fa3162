/** Exactly when the distributed and the local form of `cost.split` agree. */
module RemoteCostSplitLimits {
  import opened Types
  import opened Money
  import opened CostSplitStrategy
  import opened CostSplit
  import opened ProtocolState
  import opened RemoteNegotiation
  import opened TwoNodes
  import opened LossFreeRelay
  import opened RemoteCostSplit
  import opened CostSplitProperties

  /** Every negotiation that opens with this ask, and may start, comes to the same in both forms. */
  ghost predicate OpeningIsSafe(asked: real, limit: nat) {
    forall d: Deal :: d.Valid() && d.SteadyStart() && d.asked == asked ==>
      (FormsAgree(d, limit, limit + 2) <==> d.delegatedAtStart)
  }

  /** An initiator and a responder without guards. */
  function Plain(total: real, asked: real, initiator: Profile, responder: Profile): Deal {
    Deal(total, asked, initiator, responder, map[], {}, true)
  }

  lemma ZeroAskSettles(d: Deal, limit: nat)
    requires d.Valid() && d.Ask() == 0 && limit >= 1
    ensures EndsHere(d, limit, [])
  {
    PortionMonotone(d.total, 0.0, Min(d.responder.preferred, d.responder.reservation));
    assert Portion(d.total, 0.0) == 0;
  }

  /** The system after the opening and one counter. */
  lemma AfterFirstCounter(d: Deal, limit: nat, x: int)
    requires d.delegatedAtStart && 2 <= limit && 1 !in d.guards && Move(d, []) == Counter(x)
    ensures AtRound(LossFree(d, limit, 2), d, [x])
  {
    hide Move, AtRound, Delivery;
    RequestDelivered(d, limit);
    CounterDelivered(LossFree(d, limit, 1), d, limit, [], x);
    assert [] + [x] == [x];
    OneMore(d, limit, 1);
  }

  lemma OneMore(d: Deal, limit: nat, n: nat)
    ensures LossFree(d, limit, n + 1) == Delivery(Answers(d, limit), LossFree(d, limit, n))
  {
    hide Delivery;
    DeliveriesAtEnd(Answers(d, limit), Started(d), n);
  }

  /** An ask rounded down: the responder concedes all of the rounded ask, and the initiator's
      node, which remembers the unrounded one, still finds it too little. */
  function RoundedDownDeal(asked: real): Deal {
    var total := (Round(asked) + 1) as real;
    Plain(total, asked, Profile(0.0, 1.0, 0.0, total), Profile(1.0, 1.0, 0.0, total))
  }

  lemma RoundedDownMoves(asked: real)
    requires 0.0 < Round(asked) as real < asked
    ensures var d := RoundedDownDeal(asked); var ask := Round(asked);
            && d.Valid() && d.SteadyStart() && d.Floor() <= d.Ceiling()
            && Move(d, []) == Counter(ask) && Move(d, [ask]) == Accept(ask)
            && InitiatorAction(d.initiator, d.total, asked, Offer(ask, Some(asked))) == Escalate(ShareBelowReservation)
  {
    var d := RoundedDownDeal(asked);
    var ask := Round(asked);
    RoundFixesCents(ask);
    RoundFixesCents(ask + 1);
    assert d.total * 1.0 == d.total && d.total * 0.0 == 0.0;
    assert Portion(d.total, 1.0) == ask + 1 && Portion(d.total, 0.0) == 0;
    assert Concede(0.0, ask as real, 1.0) == ask as real;
    hide Portion, Concede, Round;
  }

  /** An ask rounded up: the unrounded ask concedes just enough to meet the standing offer. */
  function RoundedUpDeal(asked: real): Deal
    requires 0.0 < asked && Round(asked) >= 1
  {
    var ask := Round(asked) as real;
    Plain(ask, asked, Profile(1.0, 0.5 - (ask - asked) / 4.0, 0.0, ask), Profile(1.0, (ask - 1.0) / ask, 0.0, ask))
  }

  lemma RoundedUpMoves(asked: real)
    requires 0.0 < asked < Round(asked) as real
    ensures var d := RoundedUpDeal(asked); var ask := Round(asked);
            && d.Valid() && d.SteadyStart() && d.Floor() <= d.Ceiling()
            && Move(d, []) == Counter(ask - 1) && Move(d, [ask - 1]) == Counter(ask)
            && InitiatorAction(d.initiator, d.total, asked, Offer(ask - 1, Some(asked))) == Accept(ask - 1)
  {
    var d := RoundedUpDeal(asked);
    var ask := Round(asked);
    var e := ask as real - asked;
    assert 0.0 < e <= 0.5;
    RoundedUpIsValid(ask, asked);
    RoundedUpAnswer(d.responder, ask);
    RoundedUpReturn(d.initiator, ask, e);
    RoundedUpAcceptance(d.initiator, ask, asked, e);
    hide Round, InitiatorAction, ResponderAction, Portion;
  }

  lemma RoundedUpIsValid(ask: int, asked: real)
    requires ask == Round(asked) && 0.0 < asked < ask as real
    ensures var d := RoundedUpDeal(asked);
            d.Valid() && d.SteadyStart() && d.Floor() <= d.Ceiling()
  {
    WholePortions(ask);
    hide Round, Portion;
  }

  lemma RoundedUpAnswer(p: Profile, ask: int)
    requires ask >= 1 && p == Profile(1.0, (ask as real - 1.0) / ask as real, 0.0, ask as real)
    ensures ResponderAction(p, ask as real, Offer(ask, None), false) == Counter(ask - 1)
  {
    WholePortions(ask);
    RoundFixesCents(ask - 1);
    assert Concede(0.0, ask as real, p.concession) == (ask - 1) as real;
    hide Round, Portion, Concede;
  }

  lemma RoundedUpReturn(p: Profile, ask: int, e: real)
    requires ask >= 1 && 0.0 < e <= 0.5 && p == Profile(1.0, 0.5 - e / 4.0, 0.0, ask as real)
    ensures InitiatorAction(p, ask as real, ask as real, Offer(ask - 1, Some(ask as real))) == Counter(ask)
  {
    WholePortions(ask);
    RoundedUpConcession(ask, e, p.concession);
    hide Round, Portion, Concede;
  }

  lemma RoundedUpAcceptance(p: Profile, ask: int, asked: real, e: real)
    requires ask >= 1 && 0.0 < e <= 0.5 && e == ask as real - asked && 0.0 < asked
    requires p == Profile(1.0, 0.5 - e / 4.0, 0.0, ask as real)
    ensures InitiatorAction(p, ask as real, asked, Offer(ask - 1, Some(asked))) == Accept(ask - 1)
  {
    WholePortions(ask);
    UnroundedTarget(asked, ask, e, p.concession);
    hide Round, Portion, Concede;
  }

  lemma WholePortions(total: int)
    requires total >= 0
    ensures Portion(total as real, 1.0) == total && Portion(total as real, 0.0) == 0
  {
    RoundFixesCents(total);
    assert total as real * 1.0 == total as real && total as real * 0.0 == 0.0;
  }

  lemma RoundedUpConcession(ask: int, e: real, c: real)
    requires 0.0 < e <= 0.5 && c == 0.5 - e / 4.0
    ensures var target := Concede(ask as real, (ask - 1) as real, c);
            (ask - 1) as real < target && Round(target) == ask
  {
    assert Concede(ask as real, (ask - 1) as real, c) == ask as real - c;
    hide Round, Concede;
    RoundIsNearest(ask as real - c, ask);
  }

  /** From the unrounded ask, the same concession lands within half a cent of the offer. */
  lemma UnroundedTarget(asked: real, ask: int, e: real, c: real)
    requires e == ask as real - asked && 0.0 < e <= 0.5 && c == 0.5 - e / 4.0
    ensures var target := Concede(asked, (ask - 1) as real, c);
            (ask - 1) as real < target && Round(target) == ask - 1
  {
    hide Round;
    var target := Concede(asked, (ask - 1) as real, c);
    assert target - (ask - 1) as real == (1.0 - e) * (1.0 - c);
    assert (1.0 - e) * (1.0 - c) == 0.5 - e / 4.0 - e * e / 4.0;
    ScaleMonotone(0.0, e, e);
    ScaleMonotone(e, 0.5, e);
    RoundIsNearest(target, ask - 1);
  }

  /** Round 2 as the initiator's node sees it. */
  lemma SecondReply(d: Deal, limit: nat, x: int)
    requires d.delegatedAtStart && 2 <= limit && d.guards == map[] && Move(d, []) == Counter(x)
    ensures var action := InitiatorAction(d.initiator, d.total, d.asked, Offer(x, Some(d.asked)));
            var after := LossFree(d, limit, 3);
            after.responder == Some(OpenSession(Responder, LogOf(d, [x])))
            && (action.Accept? ==> after.initiator == Some(React(OpenSession(Initiator, LogOf(d, [x])),
                 AutoAccept(AgreedShare(action.amount)))))
            && (action.Escalate? ==> after.initiator == Some(React(OpenSession(Initiator, LogOf(d, [x])),
                 AskOwner(action.reason, AskShare(x)))))
  {
    hide Move, AtRound, Delivery, Round, Portion, InitiatorAction, React, CounterRounds, OwnLastOffer, LogOf, LossFree;
    AfterFirstCounter(d, limit, x);
    OfferDelivered(LossFree(d, limit, 2), d, limit, [x]);
    OneMore(d, limit, 2);
    LogFacts(d, [x]);
    LastOfIs(d, [x]);
    OwnLastIs(d, [x]);
    RoundFixesCents(x);
    assert [x][..0] == [];
    AtRoundOne(LossFree(d, limit, 2), d, x);
  }

  lemma AtRoundOne(sys: System, d: Deal, x: int)
    requires AtRound(sys, d, [x])
    ensures sys.Node(Responder) == Some(OpenSession(Responder, LogOf(d, [x])))
  {
  }

  /** A session that has ended is the same after any further deliveries. */
  lemma {:induction false} EndedStays(d: Deal, limit: nat, m: nat, n: nat, side: Side)
    requires LossFree(d, limit, m).Node(side).Some? && LossFree(d, limit, m).Node(side).value.status.Terminal()
    requires m <= n
    ensures LossFree(d, limit, n).Node(side) == LossFree(d, limit, m).Node(side)
    decreases n
  {
    hide LossFree;
    if m < n {
      EndedStays(d, limit, m, n - 1, side);
      OneMore(d, limit, n - 1);
      DeliveryKeepsEnded(d, limit, LossFree(d, limit, n - 1), side);
    }
  }

  lemma DeliveryKeepsEnded(d: Deal, limit: nat, sys: System, side: Side)
    requires sys.Node(side).Some? && sys.Node(side).value.status.Terminal()
    ensures Delivery(Answers(d, limit), sys).Node(side) == sys.Node(side)
  {
    hide Process, HandlingOf;
  }

  /** So is a pair of nodes that hold the same messages. */
  lemma {:induction false} StillnessStays(d: Deal, limit: nat, m: nat, n: nat)
    requires |LossFree(d, limit, m).Log(Initiator)| == |LossFree(d, limit, m).Log(Responder)|
    requires m <= n
    ensures LossFree(d, limit, n) == LossFree(d, limit, m)
    decreases n
  {
    hide LossFree;
    if m < n {
      StillnessStays(d, limit, m, n - 1);
      OneMore(d, limit, n - 1);
    }
  }

  /** What a run and a final system disagree about: one has ended in an agreement, or in a
      rejection, and the other has not. */
  lemma StatusGivesAway(d: Deal, limit: nat, n: nat, side: Side)
    ensures FormsAgree(d, limit, n) ==>
              var node := LossFree(d, limit, n).Node(side);
              && node.Some?
              && (node.value.status == Agreed <==> Negotiate(d, limit).ending.Agreement?)
              && (node.value.status == Failed <==> Negotiate(d, limit).ending.Rejection?)
  {
    hide LossFree, Negotiate, LogOf;
  }

  lemma RoundedDownLocally(asked: real, limit: nat)
    requires 0.0 < Round(asked) as real < asked && limit >= 2
    ensures Negotiate(RoundedDownDeal(asked), limit).ending == Agreement(Initiator, Round(asked))
  {
    var d := RoundedDownDeal(asked);
    var ask := Round(asked);
    RoundedDownMoves(asked);
    hide Move, Round, RoundedDownDeal;
    assert [] + [ask] == [ask];
    assert Negotiate(d, limit) == Play(d, limit, []) == Play(d, limit, [ask]) == Run([ask], Agreement(Initiator, ask));
  }

  /** An initiator's node that escalates in round 2 waits for good. */
  lemma WaitsForGood(d: Deal, limit: nat, x: int)
    requires d.delegatedAtStart && 2 <= limit && d.guards == map[] && Move(d, []) == Counter(x)
    requires InitiatorAction(d.initiator, d.total, d.asked, Offer(x, Some(d.asked))).Escalate?
    ensures var node := LossFree(d, limit, limit + 2).initiator;
            node.Some? && node.value.status == WaitingApproval
  {
    hide Move, LossFree, LogOf, InitiatorAction, CounterRounds;
    SecondReply(d, limit, x);
    LogFacts(d, [x]);
    StillnessStays(d, limit, 3, limit + 2);
  }

  lemma RoundedDownRemotely(asked: real, limit: nat)
    requires 0.0 < Round(asked) as real < asked && limit >= 2
    ensures var node := LossFree(RoundedDownDeal(asked), limit, limit + 2).initiator;
            node.Some? && node.value.status == WaitingApproval
  {
    var d := RoundedDownDeal(asked);
    var ask := Round(asked);
    RoundedDownMoves(asked);
    assert d.guards == map[] && d.asked == asked;
    hide Move, Round, LossFree, InitiatorAction, RoundedDownDeal;
    WaitsForGood(d, limit, ask);
  }

  /** For every ask that is rounded down there is a deal on which the local loop agrees at the
      rounded ask, and the initiator's node waits for its owner. */
  lemma RoundedDownDisagrees(asked: real, limit: nat)
    requires 0.0 < Round(asked) as real < asked && limit >= 2
    ensures var d := RoundedDownDeal(asked);
            var node := LossFree(d, limit, limit + 2).initiator;
            && d.Valid() && d.SteadyStart() && d.asked == asked && d.delegatedAtStart
            && Negotiate(d, limit).ending == Agreement(Initiator, Round(asked))
            && node.Some? && node.value.status == WaitingApproval
            && !FormsAgree(d, limit, limit + 2)
  {
    RoundedDownMoves(asked);
    assert RoundedDownDeal(asked).asked == asked && RoundedDownDeal(asked).delegatedAtStart;
    hide Round, LossFree, RoundedDownDeal, FormsAgree, Negotiate;
    RoundedDownLocally(asked, limit);
    RoundedDownRemotely(asked, limit);
    StatusGivesAway(RoundedDownDeal(asked), limit, limit + 2, Initiator);
  }

  lemma RoundedUpLocally(asked: real, limit: nat)
    requires 0.0 < asked < Round(asked) as real && 2 <= limit <= MAX_COUNTER_ROUNDS
    ensures !Negotiate(RoundedUpDeal(asked), limit).ending.Agreement?
  {
    hide Move, Round, RoundedUpDeal, Reached, Play;
    var d := RoundedUpDeal(asked);
    RoundedUpMoves(asked);
    EmptyIsReached(d);
    PlayStaysInCorridor(d, limit, []);
    assert RoundedUpDeal(asked).guards == map[] by {
      NoGuardsInPlain(asked);
    }
    TwoCountersOnTheWay(d, limit, Round(asked) - 1, Round(asked));
  }

  lemma NoGuardsInPlain(asked: real)
    requires 0.0 < asked && Round(asked) >= 1
    ensures RoundedUpDeal(asked).guards == map[]
  {
  }

  lemma TwoCountersOnTheWay(d: Deal, limit: nat, x: int, y: int)
    requires 2 <= limit <= MAX_COUNTER_ROUNDS && d.guards == map[] && d.Floor() <= d.Ceiling()
    requires Move(d, []) == Counter(x) && Move(d, [x]) == Counter(y)
    ensures Negotiate(d, limit) == Play(d, limit, [])
    ensures |Negotiate(d, limit).counters| == limit - 1
    ensures limit == 2 ==> !Negotiate(d, limit).ending.Agreement?
  {
    hide Move;
    assert [] + [x] == [x] && [x] + [y] == [x, y];
    assert Negotiate(d, limit) == Play(d, limit, []) == Play(d, limit, [x]);
    if limit == 3 {
      assert Play(d, limit, [x]) == Play(d, limit, [x, y]);
      EndsInRoundThree(d, [x, y]);
    }
  }

  lemma AcceptReacted(d: Deal, x: int)
    ensures React(OpenSession(Initiator, LogOf(d, [x])), AutoAccept(AgreedShare(x))).status == Agreed
  {
    LogFacts(d, [x]);
    hide LogOf, RequestPayload;
  }

  /** An initiator's node that accepts in round 2 has agreed for good. */
  lemma AgreedForGood(d: Deal, limit: nat, x: int)
    requires d.delegatedAtStart && 2 <= limit && d.guards == map[] && Move(d, []) == Counter(x)
    requires InitiatorAction(d.initiator, d.total, d.asked, Offer(x, Some(d.asked))) == Accept(x)
    ensures var node := LossFree(d, limit, limit + 2).initiator;
            node.Some? && node.value.status == Agreed
  {
    hide Move, LossFree, LogOf, InitiatorAction, React;
    SecondReply(d, limit, x);
    AcceptReacted(d, x);
    EndedStays(d, limit, 3, limit + 2, Initiator);
  }

  /** For every ask that is rounded up there is a deal on which the initiator's node agrees for
      good, and the local loop does not agree. */
  lemma RoundedUpDisagrees(asked: real, limit: nat)
    requires 0.0 < asked < Round(asked) as real && 2 <= limit <= MAX_COUNTER_ROUNDS
    ensures var d := RoundedUpDeal(asked);
            var node := LossFree(d, limit, limit + 2).initiator;
            && d.Valid() && d.SteadyStart() && d.asked == asked && d.delegatedAtStart
            && node.Some? && node.value.status == Agreed && !Negotiate(d, limit).ending.Agreement?
            && !FormsAgree(d, limit, limit + 2)
  {
    var d := RoundedUpDeal(asked);
    RoundedUpMoves(asked);
    RoundedUpLocally(asked, limit);
    assert d.guards == map[] && d.asked == asked && d.delegatedAtStart;
    hide Move, Round, LossFree, InitiatorAction, RoundedUpDeal, FormsAgree, Negotiate;
    AgreedForGood(d, limit, Round(asked) - 1);
    StatusGivesAway(d, limit, limit + 2, Initiator);
  }

  lemma EndsInRoundThree(d: Deal, counters: seq<int>)
    requires |counters| == 2 && d.guards == map[]
    ensures |Play(d, 3, counters).counters| == 2
  {
    hide Move;
  }

  /** An opening is safe exactly when it is in whole cents or rounds to nothing. */
  lemma OpeningIsExact(asked: real, limit: nat)
    requires 0.0 <= asked && 2 <= limit <= MAX_COUNTER_ROUNDS
    ensures OpeningIsSafe(asked, limit) <==> IsCents(asked) || Round(asked) == 0
  {
    hide FormsAgree, Negotiate, EndsHere;
    if IsCents(asked) || Round(asked) == 0 {
      forall d: Deal | d.Valid() && d.SteadyStart() && d.asked == asked
        ensures FormsAgree(d, limit, limit + 2) <==> d.delegatedAtStart
      {
        if !IsCents(asked) {
          ZeroAskSettles(d, limit);
        }
        DistributedRefinesLocal(d, limit, limit + 2);
      }
    } else if Round(asked) as real < asked {
      RoundedDownMoves(asked);
      RoundedDownDisagrees(asked, limit);
    } else {
      RoundedUpMoves(asked);
      RoundedUpDisagrees(asked, limit);
    }
  }

  /** A negotiation in which both sides concede half of the gap and never meet. */
  const SLOW := Plain(8.0, 8.0, Profile(1.0, 0.5, 0.0, 8.0), Profile(1.0, 0.5, 0.0, 8.0))

  lemma SlowMoves()
    ensures SLOW.Valid() && SLOW.SteadyStart() && IsCents(SLOW.asked) && SLOW.Floor() <= SLOW.Ceiling()
    ensures Move(SLOW, []) == Counter(4) && Move(SLOW, [4]) == Counter(6) && Move(SLOW, [4, 6]) == Counter(5)
  {
    assert Portion(8.0, 1.0) == 8 && Portion(8.0, 0.0) == 0;
  }

  /** With a round limit above the protocol's, the third answer is an ERROR where the local driver
      goes on. */
  lemma LongLimitRemotely(limit: nat)
    requires limit > MAX_COUNTER_ROUNDS
    ensures var node := LossFree(SLOW, limit, limit + 2).responder;
            && node.Some? && node.value.status == Failed && node.value.log != []
            && node.value.log[|node.value.log| - 1].kind == ERROR
            && node.value.log[|node.value.log| - 1].delta == Coded(RoundsExhausted)
  {
    SlowMoves();
    hide Move, AtRound, Delivery, LossFree, LogOf, SLOW, ReplyTo, CounterRounds, RequestPayload;
    NoGuardsInSlow();
    AfterFirstCounter(SLOW, limit, 4);
    CounterDelivered(LossFree(SLOW, limit, 2), SLOW, limit, [4], 6);
    OneMore(SLOW, limit, 2);
    assert [4] + [6] == [4, 6];
    OfferDelivered(LossFree(SLOW, limit, 3), SLOW, limit, [4, 6]);
    OneMore(SLOW, limit, 3);
    ReplyIsMove(SLOW, limit, [4, 6]);
    LogFacts(SLOW, [4, 6]);
    EndedStays(SLOW, limit, 4, limit + 2, Responder);
  }

  lemma NoGuardsInSlow()
    ensures SLOW.guards == map[] && SLOW.delegatedAtStart
  {
  }

  lemma LongLimitLocally(limit: nat)
    requires limit > MAX_COUNTER_ROUNDS
    ensures !Negotiate(SLOW, limit).ending.Rejection?
  {
    SlowMoves();
    NoGuardsInSlow();
    EmptyIsReached(SLOW);
    hide Move, SLOW;
    assert [] + [4] == [4] && [4] + [6] == [4, 6];
    assert Negotiate(SLOW, limit) == Play(SLOW, limit, []) == Play(SLOW, limit, [4]) == Play(SLOW, limit, [4, 6]);
    PlayStaysInCorridor(SLOW, limit, []);
    PlayGrows(SLOW, limit, [4, 6]);
  }

  lemma {:induction false} PlayGrows(d: Deal, limit: nat, counters: seq<int>)
    ensures |Play(d, limit, counters).counters| >= |counters|
    decreases limit - |counters|
  {
    hide Move;
    var round := |counters| + 1;
    if round <= limit && round !in d.guards {
      var move := CapAtLimit(Move(d, counters), round, limit);
      if move.Counter? {
        PlayGrows(d, limit, counters + [move.amount]);
      }
    }
  }

  /** With a round limit above the protocol's, the third answer is an ERROR where the local driver
      goes on: this deal fails remotely and does not fail locally. */
  lemma LongLimitDisagrees(limit: nat)
    requires limit > MAX_COUNTER_ROUNDS
    ensures var node := LossFree(SLOW, limit, limit + 2).responder;
            && node.Some? && node.value.status == Failed && node.value.log != []
            && node.value.log[|node.value.log| - 1].kind == ERROR
            && node.value.log[|node.value.log| - 1].delta == Coded(RoundsExhausted)
            && !Negotiate(SLOW, limit).ending.Rejection?
            && !FormsAgree(SLOW, limit, limit + 2)
  {
    hide LossFree, Negotiate, FormsAgree, SLOW;
    LongLimitRemotely(limit);
    LongLimitLocally(limit);
    StatusGivesAway(SLOW, limit, limit + 2, Responder);
  }

  /** The round limits for which the forms agree on every negotiation in whole cents. */
  lemma LimitIsExact(limit: nat)
    requires limit >= 1
    ensures (forall d: Deal :: d.Valid() && d.SteadyStart() && IsCents(d.asked) ==>
               (FormsAgree(d, limit, limit + 2) <==> d.delegatedAtStart))
        <==> limit <= MAX_COUNTER_ROUNDS
  {
    hide FormsAgree;
    if limit <= MAX_COUNTER_ROUNDS {
      forall d: Deal | d.Valid() && d.SteadyStart() && IsCents(d.asked)
        ensures FormsAgree(d, limit, limit + 2) <==> d.delegatedAtStart
      {
        DistributedRefinesLocal(d, limit, limit + 2);
      }
    } else {
      SlowMoves();
      LongLimitDisagrees(limit);
    }
  }

  /** An initiator whose owner has switched cost splits off, and an ask of nothing. */
  const UNDELEGATED :=
    Deal(8.0, 0.0, Profile(1.0, 0.5, 0.0, 8.0), Profile(1.0, 0.5, 0.0, 8.0), map[2 := NotDelegated], {}, false)

  /** The start gate makes a difference: the local loop agrees in round 1, before the initiator's
      turn comes, where no remote negotiation may even start. */
  lemma UndelegatedStartDiffers(limit: nat, n: nat)
    requires limit >= 1
    ensures UNDELEGATED.Valid() && UNDELEGATED.SteadyStart() && IsCents(UNDELEGATED.asked)
    ensures Negotiate(UNDELEGATED, limit) == Run([], Agreement(Responder, 0))
    ensures LossFree(UNDELEGATED, limit, n) == NOTHING && !FormsAgree(UNDELEGATED, limit, n)
  {
    assert Portion(8.0, 1.0) == 8 && Portion(8.0, 0.0) == 0;
    NothingWithoutStart(UNDELEGATED, limit, n);
    hide LossFree, FormsAgree;
  }
}
