/** The local driver of `cost.split`, as a function of what the two clones bring to the table.
    The counters made so far determine the rest of the bargaining: the responder moves in the
    odd rounds, the initiator in the even ones. */
module CostSplit {
  import opened Types
  import opened Money
  import opened CostSplitStrategy

  /** One negotiation. A guard may stop the party that moves: `guards[k]` is the reason found
      when the guard is evaluated for round `k`, and round 0 stands for the evaluation that
      precedes the zone-of-agreement shortcut. `highValue` holds the rounds (again with 0) in
      which the responder's owner wants to approve high values. `delegatedAtStart` says whether the
      initiator's owner has delegated cost splits when the negotiation is started, which only the
      remote form looks at. */
  datatype Deal = Deal(
    total: real,
    asked: real,
    initiator: Profile,
    responder: Profile,
    guards: map<nat, Reason>,
    highValue: set<nat>,
    delegatedAtStart: bool
  ) {
    predicate Valid() {
      0.0 < total && 0.0 <= asked <= total && initiator.Valid() && responder.Valid()
    }

    /** The initiator's opening ask, in cents. */
    function Ask(): int {
      Round(asked)
    }

    function Profile(side: Side): Profile {
      if side.Initiator? then initiator else responder
    }

    /** L, against the rounded ask. */
    function Floor(): int {
      CostSplitStrategy.Floor(initiator, total, Ask() as real).Floor
    }

    /** U. */
    function Ceiling(): int {
      CostSplitStrategy.Ceiling(responder, total)
    }

    function Opening(): int {
      CostSplitStrategy.Opening(responder, total)
    }

    /** Nothing the guards and the approval rules read changes between the evaluation before
        the shortcut and the one in round 1. */
    predicate SteadyStart() {
      && (0 in guards <==> 1 in guards)
      && (0 in guards && 1 in guards ==> guards[0] == guards[1])
      && (0 in highValue <==> 1 in highValue)
    }
  }

  datatype Ending =
    | Agreement(decider: Side, share: int)
    | Escalation(decider: Side, reason: Reason, share: int)
    | Rejection(decider: Side, reason: Reason)
    | LeftOpen

  datatype Run = Run(counters: seq<int>, ending: Ending)

  /** Who moves in a round. */
  function Turn(round: nat): Side {
    if round % 2 == 1 then Responder else Initiator
  }

  function Standing(d: Deal, counters: seq<int>): int {
    if counters == [] then d.Ask() else counters[|counters| - 1]
  }

  /** The last offer of the party whose turn it is. */
  function OwnLast(d: Deal, counters: seq<int>): Option<real> {
    if |counters| >= 2 then Some(counters[|counters| - 2] as real)
    else if |counters| == 1 then Some(d.Ask() as real)
    else None
  }

  function Move(d: Deal, counters: seq<int>): Action {
    var round := |counters| + 1;
    NextAction(d.Profile(Turn(round)), Turn(round), d.total, d.Ask() as real,
               Offer(Standing(d, counters), OwnLast(d, counters)), round in d.highValue)
  }

  /** In the last round a counter becomes an escalation. */
  function CapAtLimit(a: Action, round: nat, limit: nat): Action {
    if a.Counter? && round == limit then Escalate(NoAgreementWithinRounds) else a
  }

  /** The alternating offers, from the counters already made. */
  function Play(d: Deal, limit: nat, counters: seq<int>): Run
    decreases limit - |counters|
  {
    var round := |counters| + 1;
    if round > limit then
      Run(counters, LeftOpen)
    else if round in d.guards then
      Run(counters, Escalation(Turn(round), d.guards[round], Standing(d, counters)))
    else
      match CapAtLimit(Move(d, counters), round, limit)
      case Accept(x) => Run(counters, Agreement(Turn(round), x))
      case Escalate(reason) => Run(counters, Escalation(Turn(round), reason, Standing(d, counters)))
      case Reject(reason) => Run(counters, Rejection(Turn(round), reason))
      case Counter(x) => Play(d, limit, counters + [x])
  }

  /** What the driver does before the first round when no zone of agreement exists. */
  function WithoutZone(d: Deal): Ending {
    if d.Ask() as real <= d.responder.maxNegotiable || 0 in d.highValue
    then Escalation(Responder, NoZoneOfAgreement, d.Ask())
    else Rejection(Responder, ShareExceedsLimit)
  }

  /** The whole local negotiation. */
  function Negotiate(d: Deal, limit: nat): Run {
    if 0 in d.guards then Run([], Escalation(Responder, d.guards[0], d.Ask()))
    else if d.Floor() > d.Ceiling() then Run([], WithoutZone(d))
    else Play(d, limit, [])
  }

  /** The same negotiation with the zone-of-agreement shortcut deleted. */
  function NegotiateWithoutShortcut(d: Deal, limit: nat): Run {
    if 0 in d.guards then Run([], Escalation(Responder, d.guards[0], d.Ask()))
    else Play(d, limit, [])
  }
}
