/** What every `cost.split` run keeps, for every pair of clones and every round limit. */
module CostSplitProperties {
  import opened Types
  import opened Money
  import opened CostSplitStrategy
  import opened CostSplit

  /** The `i`-th counter stays on its party's side of the corridor and of the other party's
      standing offer, and takes no concession back. Even positions hold the responder's. */
  predicate Fits(d: Deal, counters: seq<int>, i: nat)
    requires i < |counters|
  {
    && counters[i] <= d.Ask()
    && if i % 2 == 0 then
         && d.Opening() <= counters[i] <= d.Ceiling()
         && (i >= 1 ==> counters[i] <= counters[i - 1])
         && (i >= 2 ==> counters[i - 2] <= counters[i])
       else
         && d.Floor() <= counters[i]
         && counters[i - 1] < counters[i]
         && (i >= 2 ==> counters[i] <= counters[i - 2])
  }

  ghost predicate Corridor(d: Deal, counters: seq<int>) {
    forall i :: 0 <= i < |counters| ==> Fits(d, counters, i)
  }

  /** A corridor that somebody has entered: the responder has countered an ask it could meet. */
  ghost predicate Reached(d: Deal, counters: seq<int>) {
    Corridor(d, counters) && (counters != [] ==> d.Opening() < d.Ask() <= d.Ceiling())
  }

  lemma CorridorGrows(d: Deal, counters: seq<int>, x: int)
    requires Corridor(d, counters) && Fits(d, counters + [x], |counters|)
    ensures Corridor(d, counters + [x])
  {
    forall i | 0 <= i < |counters| ensures Fits(d, counters + [x], i) {
      assert Fits(d, counters, i);
    }
  }

  lemma FloorIsCents(d: Deal)
    ensures CostSplitStrategy.Floor(d.initiator, d.total, d.Ask() as real) == d.Floor() as real
    ensures d.Floor() <= d.Ask()
  {
  }

  lemma FirstMove(d: Deal)
    requires d.Valid()
    ensures match Move(d, [])
            case Accept(x) => x == d.Ask() <= d.Opening() <= d.Ceiling()
            case Counter(x) => d.Opening() < d.Ask() <= d.Ceiling() && d.Opening() <= x <= d.Ask()
            case Escalate(r) => r == ShareExceedsReservation && d.Ask() > d.Ceiling()
            case Reject(r) => r == ShareExceedsLimit && d.Ask() > d.Ceiling()
  {
    hide Concede, Portion, Round;
    OpeningBelowCeiling(d.responder, d.total);
    if d.Opening() < d.Ask() <= d.Ceiling() {
      ResponderCounterInCorridor(d.responder, d.total, d.Ask(), d.Opening(), 1 in d.highValue);
    }
  }

  lemma LaterResponderMove(d: Deal, counters: seq<int>)
    requires d.Valid() && Reached(d, counters) && counters != [] && |counters| % 2 == 0
    ensures Move(d, counters).Counter?
    ensures counters[|counters| - 2] <= Move(d, counters).amount <= counters[|counters| - 1]
  {
    hide Concede, Portion, Round;
    var n := |counters|;
    assert Fits(d, counters, n - 1);
    ResponderCounterInCorridor(d.responder, d.total, counters[n - 1], counters[n - 2], n + 1 in d.highValue);
  }

  lemma InitiatorMove(d: Deal, counters: seq<int>)
    requires d.Valid() && Reached(d, counters) && |counters| % 2 == 1
    ensures var mine := if |counters| == 1 then d.Ask() else counters[|counters| - 2];
            match Move(d, counters)
            case Accept(x) => x == Standing(d, counters) && d.Floor() <= x
            case Counter(x) => Standing(d, counters) < x <= mine && d.Floor() <= x
            case Escalate(r) => r == ShareBelowReservation
            case Reject(_) => false
  {
    hide Concede, Portion, Round;
    var n := |counters|;
    var mine := if n == 1 then d.Ask() else counters[n - 2];
    FloorIsCents(d);
    assert n > 1 ==> Fits(d, counters, n - 2);
    InitiatorCounterInCorridor(d.initiator, d.total, d.Ask(), counters[n - 1], mine);
  }

  /** What a move can be, in a history that the driver reaches. */
  lemma MoveInReached(d: Deal, counters: seq<int>)
    requires d.Valid() && Reached(d, counters)
    ensures match Move(d, counters)
            case Accept(x) =>
              && x == Standing(d, counters) && d.Floor() <= x <= d.Ceiling() && x <= d.Ask()
              && (counters == [] || |counters| % 2 == 1)
            case Counter(x) => Reached(d, counters + [x])
            case Escalate(r) =>
              if counters == [] then r == ShareExceedsReservation else |counters| % 2 == 1 && r == ShareBelowReservation
            case Reject(r) => counters == [] && r == ShareExceedsLimit
  {
    hide Move, Portion, Round;
    var n := |counters|;
    var move := Move(d, counters);
    FloorIsCents(d);
    if n == 0 {
      FirstMove(d);
    } else {
      assert Fits(d, counters, n - 1);
      assert n > 1 ==> Fits(d, counters, n - 2);
      if n % 2 == 0 {
        LaterResponderMove(d, counters);
      } else {
        InitiatorMove(d, counters);
      }
    }
    if move.Counter? {
      CorridorGrows(d, counters, move.amount);
    }
  }

  /** The corridor survives the whole run, and how the run can end. */
  lemma {:induction false} PlayStaysInCorridor(d: Deal, limit: nat, counters: seq<int>)
    requires d.Valid() && Reached(d, counters)
    ensures Reached(d, Play(d, limit, counters).counters)
    ensures counters <= Play(d, limit, counters).counters
    ensures EndsInCharacter(d, limit, Play(d, limit, counters))
    decreases limit - |counters|
  {
    hide Move, Portion, Round;
    var round := |counters| + 1;
    if round <= limit && round !in d.guards {
      MoveInReached(d, counters);
      var move := CapAtLimit(Move(d, counters), round, limit);
      if move.Counter? {
        PlayStaysInCorridor(d, limit, counters + [move.amount]);
      }
    }
  }

  /** Who can end a run, when, and on which terms. */
  ghost predicate EndsInCharacter(d: Deal, limit: nat, r: Run) {
    var round := |r.counters| + 1;
    match r.ending
    case Agreement(decider, share) =>
      && decider == Turn(round) && (round == 1 || round % 2 == 0)
      && share == Standing(d, r.counters)
      && d.Floor() <= share <= d.Ceiling() && share <= d.Ask()
    case Rejection(decider, _) => decider == Responder && round == 1
    case Escalation(decider, _, share) => decider == Turn(round) && share == Standing(d, r.counters)
    case LeftOpen => |r.counters| >= limit
  }

  lemma EmptyIsReached(d: Deal)
    ensures Reached(d, [])
  {
  }

  /** Bargaining corridor: the responder's counters rise from its opening towards U, the
      initiator's fall from the ask towards L, and they never cross. */
  lemma BargainingCorridor(d: Deal, limit: nat)
    requires d.Valid()
    ensures Corridor(d, Negotiate(d, limit).counters)
  {
    PlayStaysInCorridor(d, limit, []);
  }

  /** An agreement without a human lies in [L, U] and not above the ask. */
  lemma AutomaticAgreementInZone(d: Deal, limit: nat)
    requires d.Valid() && Negotiate(d, limit).ending.Agreement?
    ensures d.Floor() <= Negotiate(d, limit).ending.share <= d.Ceiling()
    ensures Negotiate(d, limit).ending.share <= d.Ask()
  {
    PlayStaysInCorridor(d, limit, []);
  }

  /** No agreement is reached without a human when L > U, even without the shortcut. */
  lemma NoAgreementWithoutZone(d: Deal, limit: nat)
    requires d.Valid() && d.Floor() > d.Ceiling()
    ensures !Negotiate(d, limit).ending.Agreement?
    ensures !NegotiateWithoutShortcut(d, limit).ending.Agreement?
  {
    PlayStaysInCorridor(d, limit, []);
  }

  /** Rejections and acceptances by the responder happen only in round 1; a later agreement is
      the initiator's, in an even round. */
  lemma ShapeOfEveryRun(d: Deal, limit: nat)
    requires d.Valid()
    ensures EndsInCharacter(d, limit, Negotiate(d, limit))
  {
    PlayStaysInCorridor(d, limit, []);
  }

  /** Once round 1 has countered, the responder only ever counters. */
  lemma ResponderKeepsCountering(d: Deal, counters: seq<int>)
    requires d.Valid() && Reached(d, counters) && counters != [] && |counters| % 2 == 0
    ensures Move(d, counters).Counter?
  {
    MoveInReached(d, counters);
  }

  lemma {:induction false} PlayStopsWithinLimit(d: Deal, limit: nat, counters: seq<int>)
    requires |counters| < limit
    ensures |Play(d, limit, counters).counters| < limit
    ensures !Play(d, limit, counters).ending.LeftOpen?
    decreases limit - |counters|
  {
    var round := |counters| + 1;
    if round !in d.guards {
      var move := CapAtLimit(Move(d, counters), round, limit);
      if move.Counter? {
        PlayStopsWithinLimit(d, limit, counters + [move.amount]);
      }
    }
  }

  /** The driver leaves a session open exactly when it is given no round at all to play. */
  lemma NeverLeftOpen(d: Deal, limit: nat)
    ensures Negotiate(d, limit).ending.LeftOpen? <==>
              limit == 0 && 0 !in d.guards && d.Floor() <= d.Ceiling()
  {
    if limit > 0 {
      PlayStopsWithinLimit(d, limit, []);
    }
  }

  /** Two endings that differ at most in the reason recorded on an escalation. */
  predicate SameButReason(a: Ending, b: Ending) {
    a == b || (a.Escalation? && b.Escalation? && a.decider == b.decider && a.share == b.share)
  }

  /** Two runs with the same counters, and the same ending up to the reason of an escalation that
      the shortcut has named. */
  predicate SameCourse(r: Run, local: Run) {
    && r.counters == local.counters && SameButReason(r.ending, local.ending)
    && (r != local ==> local.ending.reason == NoZoneOfAgreement)
  }

  /** The zone-of-agreement shortcut only saves a round: deleting it changes no counter, no
      decider, no share and no rejection code. */
  lemma ShortcutPreservesMeaning(d: Deal, limit: nat)
    requires d.Valid() && d.SteadyStart() && limit >= 1
    ensures SameCourse(NegotiateWithoutShortcut(d, limit), Negotiate(d, limit))
  {
    OpeningBelowCeiling(d.responder, d.total);
    assert [] + [0] == [0];
  }

  lemma FullConcessionMoves(d: Deal)
    requires d.Valid() && d.responder.concession == 1.0 && d.Ask() <= d.Ceiling()
    ensures Move(d, []) == if d.Ask() <= d.Opening() then Accept(d.Ask()) else Counter(d.Ask())
    ensures Move(d, [d.Ask()]) == Accept(d.Ask())
  {
    RoundFixesCents(d.Ask());
    assert Concede(d.Opening() as real, d.Ask() as real, 1.0) == d.Ask() as real;
  }

  /** With a responder that concedes everything and an ask between its opening and its
      ceiling, the run settles at the ask by round 2. */
  lemma FullConcessionSettlesAtAsk(d: Deal, limit: nat)
    requires d.Valid() && limit >= 2 && d.guards.Keys !! {0, 1, 2}
    requires d.responder.concession == 1.0 && d.Opening() <= d.Ask() <= d.Ceiling()
    ensures Negotiate(d, limit).ending.Agreement?
    ensures Negotiate(d, limit).ending.share == d.Ask()
    ensures |Negotiate(d, limit).counters| <= 1
  {
    var ask := d.Ask();
    FloorIsCents(d);
    assert [] + [ask] == [ask];
    FullConcessionMoves(d);
    hide Move, Portion, Round;
    if d.Opening() < ask {
      assert Play(d, limit, []) == Play(d, limit, [ask]);
    }
  }

  /** The distance between the two parties once `counters` have been made. */
  function Gap(d: Deal, counters: seq<int>): int {
    var mine := if |counters| >= 2 then counters[|counters| - 2] else d.Ask();
    if counters == [] then d.Ask() - d.Opening()
    else if |counters| % 2 == 1 then mine - Standing(d, counters)
    else Standing(d, counters) - mine
  }

  /** The initiator's counters that its floor did not hold up. */
  ghost predicate Unclamped(d: Deal, counters: seq<int>) {
    forall i :: 1 <= i < |counters| && i % 2 == 1 ==>
      d.Floor() as real <= Concede((if i == 1 then d.Ask() else counters[i - 2]) as real, counters[i - 1] as real,
        d.initiator.concession)
  }

  /** `g` shrunk `k` times by the factor `q`, half a cent of rounding being added each time. */
  ghost function Shrunk(q: real, g: real, k: nat): real {
    if k == 0 then g else Shrink(q, Shrunk(q, g, k - 1))
  }

  ghost function Power(q: real, k: nat): real {
    if k == 0 then 1.0 else q * Power(q, k - 1)
  }

  /** A history that the driver produces: every counter is the move made in its round. */
  ghost predicate Played(d: Deal, counters: seq<int>) {
    forall i :: 0 <= i < |counters| ==> Move(d, counters[..i]) == Counter(counters[i])
  }

  /** One counter shrinks the gap by the concession ratio, up to half a cent. */
  lemma CounterContracts(d: Deal, counters: seq<int>, x: int, q: real)
    requires d.Valid() && Reached(d, counters) && Move(d, counters) == Counter(x)
    requires Unclamped(d, counters + [x])
    requires 1.0 - d.responder.concession <= q && 1.0 - d.initiator.concession <= q
    ensures 0 <= Gap(d, counters)
    ensures Gap(d, counters + [x]) as real <= Shrink(q, Gap(d, counters) as real)
  {
    hide Concede, Portion, Round, Shrink;
    FloorIsCents(d);
    OpeningBelowCeiling(d.responder, d.total);
    var n := |counters|;
    var standing := Standing(d, counters);
    var history := counters + [x];
    assert n >= 1 ==> Fits(d, counters, n - 1) && history[n - 1] == counters[n - 1];
    assert n >= 2 ==> Fits(d, counters, n - 2) && history[n - 2] == counters[n - 2];
    if n % 2 == 0 {
      var mine := if n == 0 then d.Opening() else counters[n - 2];
      if n == 0 { FirstMove(d); } else { LaterResponderMove(d, counters); }
      if mine < standing {
        ResponderCounterContracts(d.responder, d.total, standing, mine, n + 1 in d.highValue);
      }
      ShrinkMonotone(1.0 - d.responder.concession, q, (standing - mine) as real, (standing - mine) as real);
    } else {
      var mine := if n == 1 then d.Ask() else counters[n - 2];
      InitiatorMove(d, counters);
      InitiatorCounterContracts(d.initiator, d.total, d.Ask(), standing, mine);
      ShrinkMonotone(1.0 - d.initiator.concession, q, (mine - standing) as real, (mine - standing) as real);
    }
  }

  /** Geometric bound: after k counters that the initiator's floor did not hold up, the gap has
      shrunk k times. */
  lemma {:induction false} GapShrinks(d: Deal, counters: seq<int>, q: real)
    requires d.Valid() && Played(d, counters) && Unclamped(d, counters)
    requires 1.0 - d.responder.concession <= q && 1.0 - d.initiator.concession <= q
    ensures Reached(d, counters)
    ensures counters != [] ==> 0 <= d.Ask() - d.Opening()
    ensures Gap(d, counters) as real <= Shrunk(q, (d.Ask() - d.Opening()) as real, |counters|)
  {
    hide Move, Portion, Round, Shrink, Concede;
    if counters != [] {
      var n := |counters| - 1;
      var before := counters[..n];
      assert before + [counters[n]] == counters;
      assert forall i :: 0 <= i <= n ==> before[..i] == counters[..i];
      GapShrinks(d, before, q);
      MoveInReached(d, before);
      CounterContracts(d, before, counters[n], q);
      ShrinkMonotone(q, q, Gap(d, before) as real, Shrunk(q, (d.Ask() - d.Opening()) as real, n));
    }
  }

  /** The closed form of the bound: the initial gap fades geometrically, and what rounding adds
      in all never exceeds the fixed point `rest` of `x == q * x + 0.5`. */
  lemma {:induction false} ShrunkClosedForm(q: real, g: real, k: nat, rest: real)
    requires 0.0 <= q < 1.0 && 0.0 <= rest && rest == q * rest + 0.5
    ensures Shrunk(q, g, k) <= Power(q, k) * g + rest
  {
    if k > 0 {
      ShrunkClosedForm(q, g, k - 1, rest);
      ScaleOnce(q, g, Shrunk(q, g, k - 1), Power(q, k - 1), rest);
    }
  }

  lemma ScaleOnce(q: real, g: real, shrunk: real, power: real, rest: real)
    requires 0.0 <= q && rest == q * rest + 0.5
    requires shrunk <= power * g + rest
    ensures Shrink(q, shrunk) <= q * power * g + rest
  {
    ScaleMonotone(shrunk, power * g + rest, q);
    assert (power * g + rest) * q == q * power * g + q * rest;
  }

  /** The counters of a run are the moves of its rounds, so the bound holds of every run. */
  lemma {:induction false} PlayIsPlayed(d: Deal, limit: nat, counters: seq<int>)
    requires Played(d, counters)
    ensures Played(d, Play(d, limit, counters).counters)
    decreases limit - |counters|
  {
    var round := |counters| + 1;
    if round <= limit && round !in d.guards {
      var move := CapAtLimit(Move(d, counters), round, limit);
      if move.Counter? {
        var longer := counters + [move.amount];
        assert longer[..|counters|] == counters;
        assert forall i :: 0 <= i < |counters| ==> longer[..i] == counters[..i];
        PlayIsPlayed(d, limit, longer);
      }
    }
  }

  lemma NegotiateIsPlayed(d: Deal, limit: nat)
    ensures Played(d, Negotiate(d, limit).counters)
  {
    PlayIsPlayed(d, limit, []);
  }

  lemma GeometricConvergence(d: Deal, limit: nat, q: real)
    requires d.Valid() && 0.0 <= q < 1.0
    requires 1.0 - d.responder.concession <= q && 1.0 - d.initiator.concession <= q
    requires Unclamped(d, Negotiate(d, limit).counters)
    ensures var counters := Negotiate(d, limit).counters;
            Gap(d, counters) as real
            <= Power(q, |counters|) * (d.Ask() - d.Opening()) as real + 0.5 / (1.0 - q)
  {
    hide Negotiate, Gap, Played, Unclamped, Move, Power, Shrunk, Portion, Round;
    var rest := 0.5 / (1.0 - q);
    assert rest == q * rest + 0.5;
    var counters := Negotiate(d, limit).counters;
    NegotiateIsPlayed(d, limit);
    GapShrinks(d, counters, q);
    ShrunkClosedForm(q, (d.Ask() - d.Opening()) as real, |counters|, rest);
  }
}
