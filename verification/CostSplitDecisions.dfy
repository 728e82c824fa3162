/** What each party of a split decides, in terms of its ratios and of the amounts on the table. */
module CostSplitDecisions {
  import opened Types
  import opened Money
  import opened CostSplitStrategy
  import opened CostSplit
  import CostSplitProperties

  /** The whole number of cents that an amount is rounded to: no other is as near, and of two that
      are equally near the even one counts. */
  predicate Nearest(n: int, x: real) {
    -0.5 <= n as real - x <= 0.5 && (n as real - x == 0.5 || n as real - x == -0.5 ==> n % 2 == 0)
  }

  lemma NearestIsRound(n: int, x: real)
    ensures Nearest(n, x) <==> n == Round(x)
  {
    if Nearest(n, x) {
      var gap := Round(x) - n;
      assert -1.0 <= gap as real <= 1.0;
    }
  }

  /** A ratio of the total, to the nearest cent. */
  predicate IsShare(n: int, total: real, ratio: real) {
    Nearest(n, total * ratio)
  }

  /** From `mine` towards `standing`, by a fraction of the gap. */
  predicate Concedes(target: real, mine: real, standing: real, fraction: real) {
    target == mine + (standing - mine) * fraction
  }

  lemma PortionIs(total: real, ratio: real, n: int)
    requires IsShare(n, total, ratio)
    ensures Portion(total, ratio) == n
  {
    NearestIsRound(n, total * ratio);
  }

  lemma TargetIs(mine: real, standing: real, c: real, target: real)
    requires Concedes(target, mine, standing, c)
    ensures Concede(mine, standing, c) == target
    ensures 0.0 <= c <= 1.0 && mine <= standing ==> mine <= target <= standing
  {
    var gap := standing - mine;
    if 0.0 <= c <= 1.0 && 0.0 <= gap {
      FractionWithin(gap, c);
    }
  }

  /** What the responder does, when it would pay `upper` at most, has the position `mine`, and would
      concede to `target`. */
  ghost predicate ResponderRule(
    action: Action, p: Profile, standing: int, highValue: bool, upper: int, mine: real, target: real
  ) {
    var x := standing as real;
    && (action == Accept(standing) <==> x <= mine)
    && (action == Escalate(ShareExceedsReservation) <==>
          mine < x && upper < standing && (x <= p.maxNegotiable || highValue))
    && (action == Reject(ShareExceedsLimit) <==> mine < x && upper < standing && p.maxNegotiable < x && !highValue)
    && (action.Counter? <==> mine < x && standing <= upper)
    && (action.Counter? ==> Nearest(action.amount, target))
  }

  lemma ResponderFollowsRule(
    p: Profile, total: real, o: Offer, highValue: bool, upper: int, opening: int, mine: real, target: real
  )
    requires Portion(total, p.reservation) == upper && Portion(total, Min(p.preferred, p.reservation)) == opening
    requires mine == if o.mine.Some? then o.mine.value else opening as real
    requires Concede(mine, o.standing as real, p.concession) == target
    requires mine <= o.standing as real ==> target <= o.standing as real
    ensures ResponderRule(ResponderAction(p, total, o, highValue), p, o.standing, highValue, upper, mine, target)
  {
    NearestIsRound(Round(target), target);
    hide Round, Portion, Concede, Nearest;
  }

  /** The responder, who would pay `upper` at most and opens at `opening`: it accepts what does not
      exceed its position, refuses what exceeds its reservation, and otherwise concedes its fraction
      of the gap, to the nearest cent. */
  lemma ResponderDecides(
    p: Profile, total: real, asked: real, o: Offer, highValue: bool, upper: int, opening: int, mine: real, target: real
  )
    requires p.Valid() && IsShare(upper, total, p.reservation)
    requires IsShare(opening, total, if p.preferred <= p.reservation then p.preferred else p.reservation)
    requires mine == if o.mine.Some? then o.mine.value else opening as real
    requires Concedes(target, mine, o.standing as real, p.concession)
    ensures ResponderRule(NextAction(p, Responder, total, asked, o, highValue), p, o.standing, highValue, upper, mine,
                          target)
  {
    hide Round, Portion, Concede, Nearest, ResponderAction, ResponderRule, IsShare, Concedes;
    PortionIs(total, p.reservation, upper);
    PortionIs(total, Min(p.preferred, p.reservation), opening);
    TargetIs(mine, o.standing as real, p.concession, target);
    ResponderFollowsRule(p, total, o, highValue, upper, opening, mine, target);
  }

  /** What the initiator does, when it would not go below `floor`, has the position `mine`, and would
      concede to `next`. */
  ghost predicate InitiatorRule(action: Action, standing: int, floor: real, mine: real, next: int) {
    var x := standing as real;
    var stuck := mine <= floor && x < mine && x < floor;
    && (action == Escalate(ShareBelowReservation) <==> stuck)
    && (action == Accept(standing) <==> mine <= x || (!stuck && next <= standing))
    && (action == Counter(next) <==> x < mine && !stuck && standing < next)
  }

  lemma InitiatorFollowsRule(
    p: Profile, total: real, asked: real, o: Offer, lower: int, floor: real, mine: real, target: real, next: int
  )
    requires Portion(total, 1.0 - p.reservation) == lower
    requires floor == if lower as real <= asked then lower as real else asked
    requires mine == if o.mine.Some? then o.mine.value else asked
    requires Concede(mine, o.standing as real, p.concession) == target
    requires Nearest(next, if target <= floor then floor else target)
    ensures InitiatorRule(InitiatorAction(p, total, asked, o), o.standing, floor, mine, next)
  {
    NearestIsRound(next, if target <= floor then floor else target);
    hide Round, Portion, Concede, Nearest;
  }

  /** The initiator, whose owner wants `asked` and lets it go down to `lower`: it accepts what reaches
      its position, asks its owner when it cannot concede any more, and otherwise concedes its
      fraction of the gap but no further than its floor, to the nearest cent, and accepts if that is
      no more than what stands. */
  lemma InitiatorDecides(
    p: Profile, total: real, asked: real, o: Offer, highValue: bool, lower: int, floor: real, mine: real,
    target: real, next: int
  )
    requires IsShare(lower, total, 1.0 - p.reservation)
    requires floor == if lower as real <= asked then lower as real else asked
    requires mine == if o.mine.Some? then o.mine.value else asked
    requires Concedes(target, mine, o.standing as real, p.concession)
    requires Nearest(next, if target <= floor then floor else target)
    ensures InitiatorRule(NextAction(p, Initiator, total, asked, o, highValue), o.standing, floor, mine, next)
  {
    hide Round, Portion, Concede, Nearest, InitiatorAction, InitiatorRule, IsShare, Concedes;
    PortionIs(total, 1.0 - p.reservation, lower);
    TargetIs(mine, o.standing as real, p.concession, target);
    InitiatorFollowsRule(p, total, asked, o, lower, floor, mine, target, next);
  }

  /** The ends of a deal's corridor: what is asked, L, U and the responder's opening. */
  lemma AmountsOfDeal(d: Deal, asked: int, lower: int, upper: int, opening: int)
    requires Nearest(asked, d.asked) && IsShare(lower, d.total, 1.0 - d.initiator.reservation)
    requires IsShare(upper, d.total, d.responder.reservation)
    requires IsShare(opening, d.total, if d.responder.preferred <= d.responder.reservation
                                       then d.responder.preferred else d.responder.reservation)
    ensures d.Ask() == asked && d.Floor() == (if lower <= asked then lower else asked)
    ensures d.Ceiling() == upper && d.Opening() == opening
  {
    NearestIsRound(asked, d.asked);
    hide Round, Portion, Nearest, IsShare;
    PortionIs(d.total, 1.0 - d.initiator.reservation, lower);
    PortionIs(d.total, d.responder.reservation, upper);
    PortionIs(d.total, Min(d.responder.preferred, d.responder.reservation), opening);
  }

  lemma FirstAnswer(d: Deal)
    requires d.Valid()
    ensures var x, first := d.Ask(), Move(d, []);
            && (first == Accept(x) <==> x <= d.Opening())
            && (first == Reject(ShareExceedsLimit) <==>
                  d.Ceiling() < x && d.responder.maxNegotiable < x as real && 1 !in d.highValue)
            && (first.Counter? <==> d.Opening() < x <= d.Ceiling())
            && (first.Counter? ==> d.Opening() <= first.amount <= x)
  {
    CostSplitProperties.FirstMove(d);
    OpeningBelowCeiling(d.responder, d.total);
    hide Round, Portion, Concede;
  }

  /** How a negotiation opens, when no guard stands in the way: the zone of agreement decides whether
      there is a first round at all, and the responder's position what comes of it. */
  lemma OpensWith(d: Deal, limit: nat, asked: int, lower: int, upper: int, opening: int)
    requires d.Valid() && d.guards == map[] && limit >= 2
    requires Nearest(asked, d.asked) && IsShare(lower, d.total, 1.0 - d.initiator.reservation)
    requires IsShare(upper, d.total, d.responder.reservation)
    requires IsShare(opening, d.total, if d.responder.preferred <= d.responder.reservation
                                       then d.responder.preferred else d.responder.reservation)
    ensures var r := Negotiate(d, limit);
            var floor := if lower <= asked then lower else asked;
            && (upper < floor ==>
                  r == Run([], if asked as real <= d.responder.maxNegotiable || 0 in d.highValue
                               then Escalation(Responder, NoZoneOfAgreement, asked)
                               else Rejection(Responder, ShareExceedsLimit)))
            && (floor <= upper && asked <= opening ==> r == Run([], Agreement(Responder, asked)))
            && (floor <= upper && opening < asked <= upper ==> r.counters != [] && opening <= r.counters[0] <= asked)
            && (floor <= upper < asked && d.responder.maxNegotiable < asked as real && 1 !in d.highValue ==>
                  r == Run([], Rejection(Responder, ShareExceedsLimit)))
  {
    hide Round, Portion, Nearest, IsShare, Move;
    AmountsOfDeal(d, asked, lower, upper, opening);
    FirstAnswer(d);
    var first := Move(d, []);
    if first.Counter? {
      CostSplitProperties.EmptyIsReached(d);
      CostSplitProperties.MoveInReached(d, []);
      assert [] + [first.amount] == [first.amount];
      CostSplitProperties.PlayStaysInCorridor(d, limit, [first.amount]);
    }
  }

  /** In the last round nobody concedes any more: who would counter asks its owner about what stands. */
  lemma LastRoundAsks(d: Deal, limit: nat, counters: seq<int>)
    requires |counters| + 1 == limit && limit !in d.guards && Move(d, counters).Counter?
    ensures Play(d, limit, counters)
         == Run(counters, Escalation(if limit % 2 == 1 then Responder else Initiator, NoAgreementWithinRounds,
                                     if counters == [] then d.Ask() else counters[|counters| - 1]))
  {
    hide Move;
  }
}
