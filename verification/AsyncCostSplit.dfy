/** `cost.split` over a Relay that loses, duplicates and reorders: as long as no owner decides, two
    nodes never leave the path of the local driver. */
module AsyncCostSplit {
  import opened Types
  import opened Money
  import opened CostSplitStrategy
  import opened CostSplit
  import opened ProtocolState
  import opened RemoteNegotiation
  import opened TwoNodes
  import opened LossFreeRelay
  import opened RemoteCostSplit
  import CostSplitProperties

  /** What may happen without the owners: the negotiation is started, an envelope is handed over,
      or one is delivered and is answered from the receiver's profile and log, rolled back by an
      error, or left without an answer by one. */
  ghost predicate Possible(d: Deal, limit: nat, sys: System, step: Step) {
    match step
    case StartNegotiation(request, proposed) =>
      d.delegatedAtStart && request == RequestOf(d) && proposed == Proposed(d.asked)
    case Flush(_, _) => true
    case Deliver(receiver, w, handling) =>
      handling.Normally? ==> handling.reply == ReplyTo(d, limit, receiver, sys.Log(receiver) + [w], w)
    case Decide(_, _, _) => false
  }

  ghost predicate Undisturbed(d: Deal, limit: nat, steps: seq<Step>) {
    forall k :: 0 <= k < |steps| ==> Possible(d, limit, Execute(steps[..k]), steps[k])
  }

  /** Everything that is said in a run. */
  function Transcript(d: Deal, r: Run): seq<Wire>
    requires !r.ending.LeftOpen?
  {
    FinalSession(d, r, Initiator).log
  }

  /** A node on the path: it has heard and said the first messages of the transcript and nothing
      else, and if it has ended, or asked its owner, then as the run ends. */
  predicate OnPath(d: Deal, r: Run, side: Side, s: Session)
    requires !r.ending.LeftOpen?
  {
    || s == FinalSession(d, r, side)
    || (1 <= |s.log| <= |r.counters| + 2 && s.log <= LogOf(d, r.counters) && s == OpenSession(side, s.log))
  }

  ghost predicate Follows(d: Deal, r: Run, sys: System) {
    && !r.ending.LeftOpen?
    && (sys.initiator.Some? ==> OnPath(d, r, Initiator, sys.initiator.value) && |sys.initiator.value.log| >= 2)
    && (sys.responder.Some? ==> OnPath(d, r, Responder, sys.responder.value))
    && forall w :: w in sys.relay ==> Sent(w, Transcript(d, r))
  }

  lemma {:induction false} LogPrefix(d: Deal, counters: seq<int>, k: nat)
    requires k <= |counters|
    ensures LogOf(d, counters)[..k + 2] == LogOf(d, counters[..k])
  {
    if k < |counters| {
      var n := |counters| - 1;
      LogPrefix(d, counters[..n], k);
      assert counters[..n][..k] == counters[..k];
      assert LogOf(d, counters)[..n + 2] == LogOf(d, counters[..n]);
    } else {
      assert counters[..k] == counters;
    }
  }

  lemma {:induction false} PlayExtends(d: Deal, limit: nat, counters: seq<int>)
    ensures counters <= Play(d, limit, counters).counters
    decreases limit - |counters|
  {
    hide Move;
    var round := |counters| + 1;
    if round <= limit && round !in d.guards {
      var move := CapAtLimit(Move(d, counters), round, limit);
      if move.Counter? {
        PlayExtends(d, limit, counters + [move.amount]);
      }
    }
  }

  lemma PlayStep(d: Deal, limit: nat, counters: seq<int>)
    requires |counters| < limit
    ensures var r := Play(d, limit, counters);
            if EndsHere(d, limit, counters) then r.counters == counters && !r.ending.LeftOpen?
            else
              && |counters| + 1 < limit && |counters| + 1 !in d.guards && |counters| < |r.counters|
              && Move(d, counters) == Counter(r.counters[|counters|])
              && Play(d, limit, counters + [r.counters[|counters|]]) == r
  {
    hide Move;
    if !EndsHere(d, limit, counters) {
      var x := Move(d, counters).amount;
      PlayExtends(d, limit, counters + [x]);
      assert (counters + [x])[|counters|] == x;
    }
  }

  /** Where the run stands after its first `k` counters. */
  lemma {:induction false} PlayThrough(d: Deal, limit: nat, k: nat)
    requires limit >= 1 && k <= |Play(d, limit, []).counters|
    ensures var r := Play(d, limit, []);
            && k < limit && Play(d, limit, r.counters[..k]) == r
            && (EndsHere(d, limit, r.counters[..k]) <==> k == |r.counters|)
            && (k < |r.counters| ==>
                  k + 1 < limit && k + 1 !in d.guards && Move(d, r.counters[..k]) == Counter(r.counters[k]))
            && (k == |r.counters| ==> !r.ending.LeftOpen?)
  {
    hide Play, EndsHere, Move;
    var r := Play(d, limit, []);
    if k == 0 {
      assert r.counters[..0] == [];
    } else {
      PlayThrough(d, limit, k - 1);
      PlayStep(d, limit, r.counters[..k - 1]);
      assert r.counters[..k - 1] + [r.counters[k - 1]] == r.counters[..k];
    }
    PlayStep(d, limit, r.counters[..k]);
    assert r.counters[..|r.counters|] == r.counters;
  }

  /** Where the two forms can be compared at all. */
  predicate Comparable(d: Deal, limit: nat) {
    1 <= limit <= MAX_COUNTER_ROUNDS && (IsCents(d.asked) || EndsHere(d, limit, []))
  }

  /** What a node makes of the offer that stands after some counters, when it answers from its
      profile and its log. */
  function Answered(d: Deal, limit: nat, counters: seq<int>): Session {
    var mover := Turn(|counters| + 1);
    var log := LogOf(d, counters);
    React(OpenSession(mover, log), ReplyTo(d, limit, mover, log, LastOf(d, counters)))
  }

  lemma AnsweredByMove(d: Deal, limit: nat, counters: seq<int>)
    requires (IsCents(d.asked) || counters == []) && |counters| < limit
    ensures Answered(d, limit, counters)
         == React(OpenSession(Turn(|counters| + 1), LogOf(d, counters)), LocalReply(d, limit, counters))
  {
    ReplyIsMove(d, limit, counters);
  }

  lemma OpeningInCents(d: Deal, limit: nat)
    requires Comparable(d, limit) && Play(d, limit, []).counters != []
    ensures IsCents(d.asked)
  {
    hide Play, EndsHere, IsCents;
    PlayThrough(d, limit, 0);
    assert Play(d, limit, []).counters[..0] == [];
  }

  lemma EndAnswered(d: Deal, limit: nat, r: Run)
    requires Comparable(d, limit) && r == Play(d, limit, [])
    ensures !r.ending.LeftOpen? && Answered(d, limit, r.counters) == FinalSession(d, r, Turn(|r.counters| + 1))
  {
    hide Play, Move, React, Answered, LogOf, FinalSession, EndsHere, LocalReply, IsCents;
    PlayThrough(d, limit, |r.counters|);
    assert r.counters[..|r.counters|] == r.counters;
    if r.counters != [] {
      OpeningInCents(d, limit);
    }
    AnsweredByMove(d, limit, r.counters);
    EndReacted(d, limit, r.counters);
  }

  lemma CounterAnswered(d: Deal, limit: nat, r: Run, k: nat)
    requires Comparable(d, limit) && r == Play(d, limit, []) && k < |r.counters|
    ensures Answered(d, limit, r.counters[..k]) == OpenSession(Turn(k + 1), LogOf(d, r.counters[..k + 1]))
  {
    hide Play, Move, React, Answered, LogOf, EndsHere, LocalReply, IsCents;
    PlayThrough(d, limit, k);
    OpeningInCents(d, limit);
    AnsweredByMove(d, limit, r.counters[..k]);
    CounterReacted(d, limit, r.counters[..k], r.counters[k]);
    assert r.counters[..k] + [r.counters[k]] == r.counters[..k + 1];
  }

  /** The answer to the offer after the first `k` counters keeps the mover on the path. */
  lemma AnswerOnPath(d: Deal, limit: nat, r: Run, k: nat)
    requires Comparable(d, limit) && r == Play(d, limit, []) && k <= |r.counters|
    ensures !r.ending.LeftOpen? && OnPath(d, r, Turn(k + 1), Answered(d, limit, r.counters[..k]))
    ensures |Answered(d, limit, r.counters[..k]).log| >= k + 2
  {
    hide Play, Answered, LogOf, FinalSession;
    EndAnswered(d, limit, r);
    if k == |r.counters| {
      assert r.counters[..k] == r.counters;
      FinalLog(d, r, Turn(k + 1));
    } else {
      CounterAnswered(d, limit, r, k);
      LogPrefix(d, r.counters, k + 1);
    }
  }

  lemma FinalLog(d: Deal, r: Run, side: Side)
    requires !r.ending.LeftOpen?
    ensures FinalSession(d, r, side).log == Transcript(d, r) && LogOf(d, r.counters) <= Transcript(d, r)
    ensures |Transcript(d, r)| == |r.counters| + if r.ending.Escalation? then 2 else 3
  {
    hide LogOf;
  }

  /** An answer that goes on. */
  lemma CounterReacted(d: Deal, limit: nat, counters: seq<int>, x: int)
    requires |counters| + 1 < limit <= MAX_COUNTER_ROUNDS
    requires |counters| + 1 !in d.guards && Move(d, counters) == Counter(x)
    ensures var mover := Turn(|counters| + 1);
            React(OpenSession(mover, LogOf(d, counters)), LocalReply(d, limit, counters))
            == OpenSession(mover, LogOf(d, counters + [x]))
  {
    hide Move, Round;
    LogFacts(d, counters);
    LogGrows(d, counters, x);
    hide LogOf, CounterRounds;
  }

  /** An offer that is heard in its turn. */
  lemma OfferOnPath(d: Deal, limit: nat, r: Run, side: Side, s: Session, w: Wire, handling: Handling)
    requires Comparable(d, limit) && r == Play(d, limit, []) && !r.ending.LeftOpen?
    requires 1 <= |s.log| <= |r.counters| + 1 && s.log + [w] <= LogOf(d, r.counters)
    requires s == OpenSession(side, s.log) && w.sender == side.Other() && w.sequence == |s.log| + 1
    requires handling.Normally? ==> handling.reply == ReplyTo(d, limit, side, s.log + [w], w)
    ensures var after := Process(s, w, handling);
            OnPath(d, r, side, after) && |after.log| >= |s.log|
  {
    hide Play, React, ReplyTo, EndsHere, LogOf;
    var k := |s.log| - 1;
    var counters := r.counters[..k];
    LogPrefix(d, r.counters, k);
    assert |LogOf(d, counters)| == k + 2;
    assert s.log + [w] == LogOf(d, counters) && LastOf(d, counters) == w;
    LastOfIs(d, counters);
    assert side == Turn(k + 1);
    AnswerOnPath(d, limit, r, k);
    hide Turn;
  }

  /** The closing word, to a node that has everything before it. */
  lemma ClosingOnPath(d: Deal, r: Run, side: Side, s: Session, w: Wire, handling: Handling)
    requires !r.ending.LeftOpen? && |s.log| == |r.counters| + 2
    requires s == OpenSession(side, s.log) && s.log + [w] <= Transcript(d, r) && w.sequence == |s.log| + 1
    ensures Process(s, w, handling) == FinalSession(d, r, side)
  {
    FinalLog(d, r, side);
    assert !r.ending.Escalation?;
    ClosingWordProcessed(d, r, side, handling);
    hide LogOf, Process, FinalSession;
    assert s.log == LogOf(d, r.counters);
    assert (s.log + [w])[|s.log|] == w;
  }

  /** A node on the path whose session the state machine opens to the next message. */
  lemma NextInTranscript(d: Deal, r: Run, side: Side, s: Session, w: Wire)
    requires !r.ending.LeftOpen? && OnPath(d, r, side, s) && Sent(w, Transcript(d, r))
    requires Refused(Some(s), w).None?
    ensures s == OpenSession(side, s.log) && w.sequence == |s.log| + 1 && s.log + [w] <= Transcript(d, r)
    ensures 1 <= |s.log| <= |r.counters| + 2
    ensures |s.log| <= |r.counters| + 1 ==> s.log + [w] <= LogOf(d, r.counters)
  {
    FinalLog(d, r, side);
    hide LogOf, LastKind, CounterRounds;
    assert s.lastSequence == |s.log|;
    assert s.log <= Transcript(d, r);
  }

  lemma HeardOnPath(d: Deal, limit: nat, r: Run, side: Side, s: Session, w: Wire, handling: Handling)
    requires Comparable(d, limit) && r == Play(d, limit, []) && !r.ending.LeftOpen?
    requires OnPath(d, r, side, s) && Sent(w, Transcript(d, r)) && w.sender == side.Other()
    requires handling.Normally? ==> handling.reply == ReplyTo(d, limit, side, s.log + [w], w)
    ensures var after := Receive(Some(s), w, handling);
            after.Some? && OnPath(d, r, side, after.value) && |after.value.log| >= |s.log|
  {
    hide LogOf, Process, FinalSession, Refused, Play, ReplyTo;
    if Refused(Some(s), w).None? && !handling.RolledBack? {
      NextInTranscript(d, r, side, s, w);
      FinalLog(d, r, side);
      if |s.log| <= |r.counters| + 1 {
        OfferOnPath(d, limit, r, side, s, w, handling);
      } else {
        ClosingOnPath(d, r, side, s, w, handling);
      }
    }
  }

  lemma {:induction false} LogNumbered(d: Deal, counters: seq<int>, i: nat)
    requires i < |counters| + 2
    ensures LogOf(d, counters)[i].sequence == i + 1
  {
    if counters != [] && i < |counters| + 1 {
      LogNumbered(d, counters[..|counters| - 1], i);
    }
  }

  lemma TranscriptNumbered(d: Deal, r: Run, i: nat)
    requires !r.ending.LeftOpen? && i < |Transcript(d, r)|
    ensures Transcript(d, r)[i].sequence == i + 1
    ensures i == 0 ==> Transcript(d, r)[i] == Wire(Initiator, 1, REQUEST, Some(RequestOf(d)), NoDelta)
    ensures i == 0 ==> [Transcript(d, r)[0]] <= LogOf(d, r.counters)
  {
    FinalLog(d, r, Initiator);
    LogPrefix(d, r.counters, 0);
    assert LogOf(d, r.counters)[0] == LogOf(d, r.counters[..0])[0];
    if i < |r.counters| + 2 {
      LogNumbered(d, r.counters, i);
    } else {
      ClosingWordProcessed(d, r, Initiator, Unanswered);
    }
    hide LogOf, FinalSession;
  }

  /** What a node on the path amounts to. */
  lemma OnPathMeans(d: Deal, r: Run, side: Side, s: Session)
    requires !r.ending.LeftOpen? && OnPath(d, r, side, s)
    ensures s.role == side && s.log <= Transcript(d, r)
    ensures s.status.Terminal() ==> s == FinalSession(d, r, side) && !r.ending.Escalation?
    ensures s.status == WaitingApproval ==>
              s == FinalSession(d, r, side) && r.ending.Escalation? && r.ending.decider == side
  {
    FinalLog(d, r, side);
    hide LogOf;
  }

  lemma OpeningOnPath(d: Deal, r: Run)
    requires !r.ending.LeftOpen?
    ensures OnPath(d, r, Initiator, Start(RequestOf(d), Proposed(d.asked)))
  {
    LogPrefix(d, r.counters, 0);
    assert LogOf(d, r.counters[..0]) == Start(RequestOf(d), Proposed(d.asked)).log;
  }

  lemma FirstOnPath(d: Deal, r: Run, receiver: Side, w: Wire, handling: Handling)
    requires !r.ending.LeftOpen? && Sent(w, Transcript(d, r)) && w.sender == receiver.Other()
    ensures var after := Receive(None, w, handling);
            after.Some? ==> receiver.Responder? && OnPath(d, r, receiver, after.value)
  {
    if Receive(None, w, handling).Some? {
      assert w.sequence == 1;
      TranscriptNumbered(d, r, 0);
    }
    hide LogOf, Transcript, FinalSession;
  }

  lemma DeliveryFollows(d: Deal, limit: nat, r: Run, sys: System, receiver: Side, w: Wire, handling: Handling)
    requires Comparable(d, limit) && r == Play(d, limit, []) && Follows(d, r, sys)
    requires w in sys.relay && w.sender == receiver.Other()
    requires handling.Normally? ==> handling.reply == ReplyTo(d, limit, receiver, sys.Log(receiver) + [w], w)
    ensures Follows(d, r, sys.With(receiver, Receive(sys.Node(receiver), w, handling)))
  {
    hide OnPath, Transcript, Play, ReplyTo, Receive, Sent;
    if sys.Node(receiver).None? {
      FirstOnPath(d, r, receiver, w, handling);
    } else {
      HeardOnPath(d, limit, r, receiver, sys.Node(receiver).value, w, handling);
    }
  }

  lemma NextFollows(d: Deal, limit: nat, r: Run, sys: System, step: Step)
    requires Comparable(d, limit) && r == Play(d, limit, []) && Follows(d, r, sys) && Possible(d, limit, sys, step)
    ensures Follows(d, r, Next(sys, step))
  {
    hide OnPath, Transcript, Play, ReplyTo;
    match step
    case StartNegotiation(_, _) =>
      OpeningOnPath(d, r);
    case Flush(side, index) =>
      var log := sys.Log(side);
      if index < |log| && log[index].sender == side {
        OnPathMeans(d, r, side, sys.Node(side).value);
        TranscriptNumbered(d, r, index);
        assert Sent(log[index], Transcript(d, r));
      }
    case Deliver(receiver, w, handling) =>
      if w in sys.relay && w.sender == receiver.Other() {
        DeliveryFollows(d, limit, r, sys, receiver, w, handling);
      }
  }

  lemma {:induction false} EveryRunFollows(d: Deal, limit: nat, steps: seq<Step>)
    requires Comparable(d, limit) && Undisturbed(d, limit, steps) && !Play(d, limit, []).ending.LeftOpen?
    ensures Follows(d, Play(d, limit, []), Execute(steps))
  {
    hide Play, Comparable, Possible, Next;
    if steps == [] {
      hide OnPath, Transcript;
      assert Execute(steps) == NOTHING;
    } else {
      var before := steps[..|steps| - 1];
      forall k | 0 <= k < |before| ensures Possible(d, limit, Execute(before[..k]), before[k]) {
        assert before[..k] == steps[..k];
      }
      EveryRunFollows(d, limit, before);
      assert Possible(d, limit, Execute(before), steps[|steps| - 1]);
      NextFollows(d, limit, Play(d, limit, []), Execute(before), steps[|steps| - 1]);
    }
  }

  /** Whatever the Relay loses, duplicates or reorders and whatever errors the nodes meet: as long as
      no owner decides, each node's log is the beginning of what the local driver's run amounts to,
      a session ends only as that run ends, and an owner is asked only if and what that run asks. */
  lemma AsyncFollowsLocal(d: Deal, limit: nat, steps: seq<Step>)
    requires d.Valid() && d.SteadyStart() && Comparable(d, limit) && Undisturbed(d, limit, steps)
    ensures exists r ::
              && CostSplitProperties.SameCourse(r, Negotiate(d, limit)) && !r.ending.LeftOpen?
              && forall side: Side :: Execute(steps).Node(side).Some? ==>
                   var s := Execute(steps).Node(side).value;
                   && s.log <= Transcript(d, r)
                   && (s.status.Terminal() ==> s == FinalSession(d, r, side) && !r.ending.Escalation?)
                   && (s.status == WaitingApproval ==>
                         s == FinalSession(d, r, side) && r.ending.Escalation? && r.ending.decider == side)
  {
    var r := Play(d, limit, []);
    CostSplitProperties.ShortcutPreservesMeaning(d, limit);
    assert r == NegotiateWithoutShortcut(d, limit);
    PlayThrough(d, limit, |r.counters|);
    hide Play, Negotiate, EndsHere, OnPath, Transcript, FinalSession, Execute;
    EveryRunFollows(d, limit, steps);
    forall side: Side | Execute(steps).Node(side).Some?
      ensures OnPath(d, r, side, Execute(steps).Node(side).value)
    {
      assert side == Initiator || side == Responder;
    }
    forall side: Side | Execute(steps).Node(side).Some? {
      OnPathMeans(d, r, side, Execute(steps).Node(side).value);
    }
  }
}
