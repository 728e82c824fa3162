/** The side-effect free strategy of `cost.split`: one party's next move, from its own clone
    and from what both parties can see. */
module CostSplitStrategy {
  import opened Types
  import opened Money

  /** The part of a clone's profile that the strategy reads. */
  datatype Profile = Profile(
    reservation: real,
    concession: real,
    preferred: real,
    maxNegotiable: real
  ) {
    /** The strategy assumes ratios; it does not clamp them. */
    predicate Valid() {
      && 0.0 <= reservation <= 1.0
      && 0.0 <= concession <= 1.0
      && 0.0 <= preferred <= 1.0
    }
  }

  /** The public state of the bargaining: what stands, and what this party last offered. */
  datatype Offer = Offer(standing: int, mine: Option<real>)

  datatype Action =
    | Accept(amount: int)
    | Counter(amount: int)
    | Escalate(reason: Reason)
    | Reject(reason: Reason)

  /** U: the most the responder's agent may concede. */
  function Ceiling(p: Profile, total: real): int {
    Portion(total, p.reservation)
  }

  /** The responder's first position. */
  function Opening(p: Profile, total: real): int {
    Portion(total, Min(p.preferred, p.reservation))
  }

  /** L: the least the initiator's agent may accept; never above what its owner asked for. */
  function Floor(p: Profile, total: real, asked: real): real {
    Min(Portion(total, 1.0 - p.reservation) as real, asked)
  }

  /** Proportional concession: a fraction `c` of the way from `mine` to `standing`. */
  function Concede(mine: real, standing: real, c: real): real {
    mine + (standing - mine) * c
  }

  lemma ConcedeStaysBetween(mine: real, standing: real, c: real)
    requires 0.0 <= c <= 1.0
    ensures mine <= standing ==> mine <= Concede(mine, standing, c) <= standing
    ensures standing <= mine ==> standing <= Concede(mine, standing, c) <= mine
  {
    hide Concede;
    if mine <= standing {
      ConcedeUpwards(mine, standing, c);
    }
    if standing <= mine {
      ConcedeUpwards(standing, mine, 1.0 - c);
      ConcedeFromTheOtherEnd(mine, standing, c);
    }
  }

  lemma ConcedeUpwards(mine: real, standing: real, c: real)
    requires 0.0 <= c <= 1.0 && mine <= standing
    ensures mine <= Concede(mine, standing, c) <= standing
  {
    hide Concede;
    ConcedeFraction(mine, standing, c, standing - mine);
  }

  lemma ConcedeFraction(mine: real, standing: real, c: real, gap: real)
    requires 0.0 <= c <= 1.0 && 0.0 <= gap == standing - mine
    ensures mine <= Concede(mine, standing, c) <= standing
  {
    ConcedeInGap(mine, standing, c, gap);
    FractionWithin(gap, c);
    hide Concede;
  }

  lemma ConcedeInGap(mine: real, standing: real, c: real, gap: real)
    requires gap == standing - mine
    ensures Concede(mine, standing, c) == mine + gap * c
  {
  }

  lemma ConcedeFromTheOtherEnd(mine: real, standing: real, c: real)
    ensures Concede(mine, standing, c) == Concede(standing, mine, 1.0 - c)
  {
    var gap := standing - mine;
    assert gap * (1.0 - c) == gap - gap * c;
    assert (mine - standing) * (1.0 - c) == -(gap * (1.0 - c));
  }

  function ResponderAction(p: Profile, total: real, o: Offer, highValue: bool): Action {
    var mine := if o.mine.Some? then o.mine.value else Opening(p, total) as real;
    if o.standing as real <= mine then
      Accept(o.standing)
    else if o.standing > Ceiling(p, total) then
      if o.standing as real <= p.maxNegotiable || highValue
      then Escalate(ShareExceedsReservation)
      else Reject(ShareExceedsLimit)
    else
      Counter(Round(Min(Ceiling(p, total) as real, Concede(mine, o.standing as real, p.concession))))
  }

  function InitiatorAction(p: Profile, total: real, asked: real, o: Offer): Action {
    var floor := Floor(p, total, asked);
    var mine := if o.mine.Some? then o.mine.value else asked;
    if o.standing as real >= mine then
      Accept(o.standing)
    else if mine <= floor && (o.standing as real) < floor then
      Escalate(ShareBelowReservation)
    else
      var candidate := Round(Max(floor, Concede(mine, o.standing as real, p.concession)));
      if candidate <= o.standing then Accept(o.standing) else Counter(candidate)
  }

  function NextAction(p: Profile, role: Side, total: real, asked: real, o: Offer, highValue: bool): Action {
    if role == Responder
    then ResponderAction(p, total, o, highValue)
    else InitiatorAction(p, total, asked, o)
  }

  lemma OpeningBelowCeiling(p: Profile, total: real)
    requires total >= 0.0
    ensures Opening(p, total) <= Ceiling(p, total)
  {
    PortionMonotone(total, Min(p.preferred, p.reservation), p.reservation);
  }

  /** The responder never concedes past its reservation nor past what is asked of it, and
      never takes a concession back. */
  lemma ResponderCounterInCorridor(p: Profile, total: real, standing: int, mine: int, highValue: bool)
    requires p.Valid()
    requires mine < standing <= Ceiling(p, total)
    ensures var a := ResponderAction(p, total, Offer(standing, Some(mine as real)), highValue);
            a.Counter? && mine <= a.amount <= standing
  {
    ConcedeStaysBetween(mine as real, standing as real, p.concession);
    RoundBetween(mine, Concede(mine as real, standing as real, p.concession), standing);
    hide Concede, Round, Portion;
  }

  /** The initiator never goes below its floor nor up again, and a counter stays strictly above
      the standing offer: when the candidate would reach it, the initiator accepts instead. */
  lemma InitiatorCounterInCorridor(p: Profile, total: real, asked: int, standing: int, mine: int)
    requires p.Valid()
    requires Floor(p, total, asked as real) <= mine as real
    ensures match InitiatorAction(p, total, asked as real, Offer(standing, Some(mine as real)))
            case Accept(x) => x == standing && Floor(p, total, asked as real) <= x as real
            case Counter(x) => standing < x <= mine && Floor(p, total, asked as real) <= x as real
            case Escalate(r) => r == ShareBelowReservation && standing < mine
              && (standing as real) < Floor(p, total, asked as real)
            case Reject(_) => false
  {
    if standing < mine {
      var floor := Floor(p, total, asked as real);
      ConcedeStaysBetween(mine as real, standing as real, p.concession);
      hide Concede, Round, Portion;
      RoundBetween(floor.Floor, Max(floor, Concede(mine as real, standing as real, p.concession)), mine);
    }
  }

  /** A gap after one concession that leaves a fraction `q` of it, with half a cent of rounding. */
  function Shrink(q: real, gap: real): real {
    q * gap + 0.5
  }

  lemma ShrinkMonotone(q: real, r: real, gap: real, wider: real)
    requires q <= r && 0.0 <= r && 0.0 <= gap <= wider
    ensures Shrink(q, gap) <= Shrink(r, wider)
  {
    ScaleMonotone(q, r, gap);
    ScaleMonotone(gap, wider, r);
  }

  lemma ConcessionRemainder(mine: real, standing: real, c: real)
    ensures standing - Concede(mine, standing, c) == (1.0 - c) * (standing - mine)
  {
  }

  /** A responder's counter leaves at most `1 - concession` of the gap, plus half a cent. */
  lemma ResponderCounterContracts(p: Profile, total: real, standing: int, mine: int, highValue: bool)
    requires p.Valid()
    requires mine < standing <= Ceiling(p, total)
    ensures var a := ResponderAction(p, total, Offer(standing, Some(mine as real)), highValue);
            a.Counter? && (standing - a.amount) as real <= Shrink(1.0 - p.concession, (standing - mine) as real)
  {
    hide Portion;
    ConcessionRemainder(mine as real, standing as real, p.concession);
    hide Concede, Round;
  }

  /** So does an initiator's counter, when the floor does not hold it up. */
  lemma InitiatorCounterContracts(p: Profile, total: real, asked: int, standing: int, mine: int)
    requires Floor(p, total, asked as real) <= Concede(mine as real, standing as real, p.concession)
    requires InitiatorAction(p, total, asked as real, Offer(standing, Some(mine as real))).Counter?
    ensures var a := InitiatorAction(p, total, asked as real, Offer(standing, Some(mine as real)));
            (a.amount - standing) as real <= Shrink(1.0 - p.concession, (mine - standing) as real)
  {
    hide Portion;
    ConcessionRemainder(mine as real, standing as real, p.concession);
    hide Concede, Round;
  }
}
