/** `meeting.schedule` over a Relay that loses, duplicates and reorders: as long as no owner decides,
    two nodes never leave the path of the local driver on the calendars they work on, except to ask
    an owner about nothing. */
module AsyncMeeting {
  import opened Types
  import Scheduling
  import opened MeetingSchedule
  import opened ProtocolState
  import opened RemoteNegotiation
  import opened TwoNodes
  import opened LossFreeRelay
  import opened RemoteMeeting

  /** What may happen without the owners: the negotiation is started, an envelope is handed over,
      or one is delivered and is answered from the receiver's rules and calendar, rolled back by an
      error, or left without an answer by one. */
  ghost predicate Possible(m: Meeting, step: Step) {
    match step
    case StartNegotiation(request, proposed) =>
      MayStart(m) && request == RequestOf(m) && proposed == RemoteNegotiation.Candidates(m.Offer(Initiator))
    case Flush(_, _) => true
    case Deliver(receiver, w, handling) =>
      handling.Normally? ==>
        m.Party(receiver).shares
        && handling.reply == DecideRemoteReply(m.Party(receiver), m.Slots(receiver), w.delta)
    case Decide(_, _, _) => false
  }

  ghost predicate Undisturbed(m: Meeting, steps: seq<Step>) {
    forall step :: step in steps ==> Possible(m, step)
  }

  /** Everything that is said in a run. */
  function Transcript(m: Meeting, r: Run): seq<Wire>
    requires !r.ending.LeftOpen?
  {
    FinalSession(m, r, Initiator).log
  }

  /** A node whose owner is asked about no slot, after the offer that it has heard last. */
  ghost predicate AsksInVain(m: Meeting, side: Side, s: Session) {
    && |s.log| >= 2 && side == Turn(|s.log| - 1)
    && exists reason ::
         s == OpenSession(side, s.log).(status := WaitingApproval,
                                        pending := Some(Question(reason, MeetingProposal(None, m.Offer(side)))))
  }

  /** A node on the path: it has heard and said the first messages of the transcript and nothing
      else, and if it has ended, or asked its owner about a slot, then as the run ends. */
  ghost predicate OnPath(m: Meeting, r: Run, side: Side, s: Session)
    requires !r.ending.LeftOpen?
  {
    || s == FinalSession(m, r, side)
    || (1 <= |s.log| <= |r.offers| + 1 && s.log <= LogOf(m, r.offers)
        && (s == OpenSession(side, s.log) || AsksInVain(m, side, s)))
  }

  ghost predicate Follows(m: Meeting, r: Run, sys: System) {
    && !r.ending.LeftOpen?
    && (sys.initiator.Some? ==> OnPath(m, r, Initiator, sys.initiator.value))
    && (sys.responder.Some? ==> OnPath(m, r, Responder, sys.responder.value))
    && forall w :: w in sys.relay ==> Sent(w, Transcript(m, r))
  }

  lemma {:induction false} LogPrefix(m: Meeting, offers: seq<seq<Slot>>, k: nat)
    requires k <= |offers|
    ensures LogOf(m, offers)[..k + 1] == LogOf(m, offers[..k])
  {
    if k < |offers| {
      var n := |offers| - 1;
      LogPrefix(m, offers[..n], k);
      assert offers[..n][..k] == offers[..k];
      assert LogOf(m, offers)[..n + 1] == LogOf(m, offers[..n]);
    } else {
      assert offers[..k] == offers;
    }
  }

  lemma {:induction false} RoundsExtend(m: Meeting, limit: nat, offers: seq<seq<Slot>>)
    requires offers != []
    ensures offers <= Rounds(m, limit, offers).offers
    decreases limit - |offers|
  {
    hide Scheduling.Intersect, Scheduling.Candidates, Evaluate;
    if |offers| < limit {
      RoundsExtend(m, limit, offers + [m.Offer(Turn(|offers|))]);
    }
  }

  /** A round of the local driver: it ends the run, or adds an offer. */
  lemma RoundStep(m: Meeting, limit: nat, offers: seq<seq<Slot>>)
    requires 1 <= |offers| <= limit
    ensures var r := Rounds(m, limit, offers);
            var common := Scheduling.Intersect(m.Slots(Turn(|offers|)), offers[|offers| - 1]);
            if common != [] || |offers| == limit
            then r.offers == offers && !r.ending.LeftOpen? && r.ending.decider == Turn(|offers|)
            else
              && |offers| < |r.offers| && r.offers[|offers|] == m.Offer(Turn(|offers|))
              && Rounds(m, limit, offers + [r.offers[|offers|]]) == r
  {
    hide Scheduling.Intersect, Scheduling.Candidates, Evaluate;
    var common := Scheduling.Intersect(m.Slots(Turn(|offers|)), offers[|offers| - 1]);
    if common == [] && |offers| < limit {
      var x := m.Offer(Turn(|offers|));
      RoundsExtend(m, limit, offers + [x]);
      assert (offers + [x])[|offers|] == x;
    }
  }

  /** Where the run stands after its first `k` offers. */
  lemma {:induction false} RoundsThrough(m: Meeting, limit: nat, k: nat)
    requires limit >= 1 && 1 <= k <= |Arrange(m, limit).offers|
    ensures var r := Arrange(m, limit);
            var common := Scheduling.Intersect(m.Slots(Turn(k)), r.offers[k - 1]);
            && k <= limit && Rounds(m, limit, r.offers[..k]) == r
            && (common != [] || k == limit <==> k == |r.offers|)
            && (k < |r.offers| ==> r.offers[k] == m.Offer(Turn(k)))
            && (k == |r.offers| ==> !r.ending.LeftOpen? && r.ending.decider == Turn(k))
  {
    hide Rounds, Scheduling.Intersect, Scheduling.Candidates;
    var r := Arrange(m, limit);
    if k == 1 {
      RoundsExtend(m, limit, [m.Offer(Initiator)]);
      assert r.offers[..1] == [m.Offer(Initiator)];
    } else {
      RoundsThrough(m, limit, k - 1);
      RoundStep(m, limit, r.offers[..k - 1]);
      assert r.offers[..k - 1] + [r.offers[k - 1]] == r.offers[..k];
    }
    RoundStep(m, limit, r.offers[..k]);
    assert r.offers[..|r.offers|] == r.offers;
  }

  /** What a node makes of the last of some offers. */
  function Answered(m: Meeting, offers: seq<seq<Slot>>): Session
    requires offers != []
  {
    var mover := Turn(|offers|);
    React(OpenSession(mover, LogOf(m, offers)),
          DecideRemoteReply(m.Party(mover), m.Slots(mover), RemoteNegotiation.Candidates(offers[|offers| - 1])))
  }

  lemma ClosingAnswered(m: Meeting, offers: seq<seq<Slot>>)
    requires 1 <= |offers| <= MAX_COUNTER_ROUNDS
    requires Scheduling.Intersect(m.Slots(Turn(|offers|)), offers[|offers| - 1]) != []
    ensures var r := Rounds(m, MAX_COUNTER_ROUNDS, offers);
            !r.ending.LeftOpen? && Answered(m, offers) == FinalSession(m, r, Turn(|offers|))
  {
    hide Scheduling.Intersect, Scheduling.Candidates, Evaluate, LogOf, RequestPayload, CounterRounds;
    ReplyIs(m, Turn(|offers|), offers[|offers| - 1]);
    hide DecideRemoteReply;
    RequestStaysFirst(m, offers, LogOf(m, offers)[0]);
  }

  lemma ErrorAnswered(m: Meeting, offers: seq<seq<Slot>>)
    requires |offers| == MAX_COUNTER_ROUNDS && Unreserved(m, Turn(|offers|))
    requires Scheduling.Intersect(m.Slots(Turn(|offers|)), offers[|offers| - 1]) == []
    ensures var r := Rounds(m, MAX_COUNTER_ROUNDS, offers);
            !r.ending.LeftOpen? && Answered(m, offers) == FinalSession(m, r, Turn(|offers|))
  {
    hide Scheduling.Intersect, Scheduling.Candidates, Reasons, LogOf, RequestPayload, CounterRounds;
    ReplyIs(m, Turn(|offers|), offers[|offers| - 1]);
    hide DecideRemoteReply;
    LogFacts(m, offers);
    RequestStaysFirst(m, offers, LogOf(m, offers)[0]);
  }

  lemma CounterAnswered(m: Meeting, offers: seq<seq<Slot>>)
    requires 1 <= |offers| < MAX_COUNTER_ROUNDS && Unreserved(m, Turn(|offers|))
    requires Scheduling.Intersect(m.Slots(Turn(|offers|)), offers[|offers| - 1]) == []
    ensures var mover := Turn(|offers|);
            Answered(m, offers) == OpenSession(mover, LogOf(m, offers + [m.Offer(mover)]))
  {
    hide Scheduling.Intersect, Scheduling.Candidates, Reasons, LogOf, RequestPayload, CounterRounds, DecideRemoteReply;
    ReplyIs(m, Turn(|offers|), offers[|offers| - 1]);
    CounterSaid(m, offers, m.Offer(Turn(|offers|)));
  }

  lemma CounterSaid(m: Meeting, offers: seq<seq<Slot>>, x: seq<Slot>)
    requires 1 <= |offers| < MAX_COUNTER_ROUNDS
    ensures var mover := Turn(|offers|);
            React(OpenSession(mover, LogOf(m, offers)), CounterOffer(RemoteNegotiation.Candidates(x)))
            == OpenSession(mover, LogOf(m, offers + [x]))
  {
    hide LogOf, RequestPayload, CounterRounds;
    LogFacts(m, offers);
    LogGrows(m, offers, x);
  }

  lemma VainlyAnswered(m: Meeting, offers: seq<seq<Slot>>)
    requires 1 <= |offers| && !Unreserved(m, Turn(|offers|))
    requires Scheduling.Intersect(m.Slots(Turn(|offers|)), offers[|offers| - 1]) == []
    ensures AsksInVain(m, Turn(|offers|), Answered(m, offers)) && Answered(m, offers).log == LogOf(m, offers)
  {
    hide Scheduling.Intersect, Scheduling.Candidates, Reasons, LogOf, RequestPayload, CounterRounds;
    ReplyIs(m, Turn(|offers|), offers[|offers| - 1]);
    hide DecideRemoteReply;
    RequestStaysFirst(m, offers, LogOf(m, offers)[0]);
  }

  /** The answer to the `k`th offer keeps the mover on the path. */
  lemma AnswerOnPath(m: Meeting, r: Run, k: nat)
    requires r == Arrange(m, MAX_COUNTER_ROUNDS) && 1 <= k <= |r.offers|
    ensures !r.ending.LeftOpen? && OnPath(m, r, Turn(k), Answered(m, r.offers[..k]))
  {
    hide Scheduling.Intersect, Scheduling.Candidates, Rounds, Answered, LogOf, FinalSession, Unreserved;
    RoundsThrough(m, MAX_COUNTER_ROUNDS, |r.offers|);
    RoundsThrough(m, MAX_COUNTER_ROUNDS, k);
    var offers := r.offers[..k];
    LogPrefix(m, r.offers, k);
    if Scheduling.Intersect(m.Slots(Turn(k)), offers[k - 1]) != [] {
      ClosingAnswered(m, offers);
    } else if !Unreserved(m, Turn(k)) {
      VainlyAnswered(m, offers);
    } else if k == MAX_COUNTER_ROUNDS {
      ErrorAnswered(m, offers);
    } else {
      CounterAnswered(m, offers);
      assert offers + [r.offers[k]] == r.offers[..k + 1];
      LogPrefix(m, r.offers, k + 1);
    }
  }

  lemma FinalLog(m: Meeting, r: Run, side: Side)
    requires !r.ending.LeftOpen?
    ensures FinalSession(m, r, side).log == Transcript(m, r) && LogOf(m, r.offers) <= Transcript(m, r)
    ensures |Transcript(m, r)| == |r.offers| + if r.ending.Asked? then 1 else 2
    ensures !r.ending.Asked? ==> Transcript(m, r)[|r.offers| + 1].sender == r.ending.decider
  {
    hide LogOf;
  }

  /** An offer that is heard in its turn. */
  lemma OfferOnPath(m: Meeting, r: Run, side: Side, s: Session, w: Wire, handling: Handling)
    requires r == Arrange(m, MAX_COUNTER_ROUNDS) && !r.ending.LeftOpen?
    requires 1 <= |s.log| <= |r.offers| && s.log + [w] <= LogOf(m, r.offers)
    requires s == OpenSession(side, s.log) && w.sender == side.Other() && w.sequence == |s.log| + 1
    requires handling.Normally? ==>
               handling.reply == DecideRemoteReply(m.Party(side), m.Slots(side), w.delta)
    ensures OnPath(m, r, side, Process(s, w, handling))
  {
    hide Arrange, React, DecideRemoteReply, LogOf, Scheduling.Candidates;
    var k := |s.log|;
    var offers := r.offers[..k];
    LogPrefix(m, r.offers, k);
    assert s.log + [w] == LogOf(m, offers);
    LogFacts(m, offers);
    assert w == OfferWire(k - 1, offers[k - 1]) && side == Turn(k);
    AnswerOnPath(m, r, k);
    hide Turn;
  }

  /** The closing word, to a node that has everything before it. */
  lemma ClosingOnPath(m: Meeting, r: Run, side: Side, s: Session, w: Wire, handling: Handling)
    requires !r.ending.LeftOpen? && |s.log| == |r.offers| + 1 && w.sender == side.Other()
    requires s == OpenSession(side, s.log) && s.log + [w] <= Transcript(m, r) && w.sequence == |s.log| + 1
    ensures Process(s, w, handling) == FinalSession(m, r, side)
  {
    FinalLog(m, r, side);
    FinalLog(m, r, side.Other());
    assert !r.ending.Asked?;
    assert (s.log + [w])[|s.log|] == w;
    ClosingWordProcessed(m, r, side.Other(), handling);
    hide LogOf, Process, FinalSession;
    assert s.log == LogOf(m, r.offers);
  }

  /** Nothing that its peer says in the transcript reaches a node that waits. */
  lemma NothingInVain(m: Meeting, r: Run, side: Side, s: Session, w: Wire)
    requires !r.ending.LeftOpen? && r.ending.decider == Turn(|r.offers|) && AsksInVain(m, side, s)
    requires |s.log| <= |r.offers| + 1 && Sent(w, Transcript(m, r)) && w.sender == side.Other()
    ensures Refused(Some(s), w).Some?
  {
    hide LogOf, LastKind, CounterRounds, FinalSession;
    FinalLog(m, r, side);
    if w.sequence == |s.log| + 1 && |s.log| <= |r.offers| {
      LogPrefix(m, r.offers, |s.log|);
      LogFacts(m, r.offers[..|s.log|]);
    }
  }

  /** A node on the path that lets a message of its peer in is open, and hears what comes next. */
  lemma NextInTranscript(m: Meeting, r: Run, side: Side, s: Session, w: Wire)
    requires !r.ending.LeftOpen? && r.ending.decider == Turn(|r.offers|)
    requires OnPath(m, r, side, s) && Sent(w, Transcript(m, r)) && w.sender == side.Other()
    requires Refused(Some(s), w).None?
    ensures s == OpenSession(side, s.log) && w.sequence == |s.log| + 1 && s.log + [w] <= Transcript(m, r)
    ensures 1 <= |s.log| <= |r.offers| + 1
    ensures |s.log| <= |r.offers| ==> s.log + [w] <= LogOf(m, r.offers)
  {
    hide LogOf, LastKind, CounterRounds, AsksInVain;
    FinalLog(m, r, side);
    if AsksInVain(m, side, s) && |s.log| <= |r.offers| + 1 {
      NothingInVain(m, r, side, s, w);
    }
    assert s.lastSequence == |s.log|;
    assert s.log <= Transcript(m, r);
  }

  lemma HeardOnPath(m: Meeting, r: Run, side: Side, s: Session, w: Wire, handling: Handling)
    requires r == Arrange(m, MAX_COUNTER_ROUNDS) && !r.ending.LeftOpen? && r.ending.decider == Turn(|r.offers|)
    requires OnPath(m, r, side, s) && s.role == side && Sent(w, Transcript(m, r)) && w.sender == side.Other()
    requires handling.Normally? ==>
               handling.reply == DecideRemoteReply(m.Party(side), m.Slots(side), w.delta)
    ensures var after := Receive(Some(s), w, handling);
            after.Some? && OnPath(m, r, side, after.value)
  {
    hide LogOf, Process, FinalSession, Refused, Arrange, DecideRemoteReply, OnPath;
    if Refused(Some(s), w).None? && !handling.RolledBack? {
      NextInTranscript(m, r, side, s, w);
      FinalLog(m, r, side);
      if |s.log| <= |r.offers| {
        OfferOnPath(m, r, side, s, w, handling);
      } else {
        ClosingOnPath(m, r, side, s, w, handling);
        FinalOnPath(m, r, side);
      }
    }
  }

  lemma FinalOnPath(m: Meeting, r: Run, side: Side)
    requires !r.ending.LeftOpen?
    ensures OnPath(m, r, side, FinalSession(m, r, side))
  {
    hide FinalSession;
  }

  lemma {:induction false} LogNumbered(m: Meeting, offers: seq<seq<Slot>>, i: nat)
    requires i < |offers| + 1
    ensures LogOf(m, offers)[i].sequence == i + 1
  {
    if offers != [] && i < |offers| {
      LogNumbered(m, offers[..|offers| - 1], i);
    }
  }

  lemma TranscriptNumbered(m: Meeting, r: Run, i: nat)
    requires !r.ending.LeftOpen? && i < |Transcript(m, r)|
    ensures Transcript(m, r)[i].sequence == i + 1
    ensures i == 0 ==> Transcript(m, r)[i] == Wire(Initiator, 1, REQUEST, Some(RequestOf(m)), NoDelta)
    ensures i == 0 ==> [Transcript(m, r)[0]] <= LogOf(m, r.offers)
  {
    FinalLog(m, r, Initiator);
    LogPrefix(m, r.offers, 0);
    assert LogOf(m, r.offers)[0] == LogOf(m, r.offers[..0])[0];
    if i < |r.offers| + 1 {
      LogNumbered(m, r.offers, i);
    }
    hide LogOf;
  }

  /** What a node on the path amounts to. */
  lemma OnPathMeans(m: Meeting, r: Run, side: Side, s: Session)
    requires !r.ending.LeftOpen? && OnPath(m, r, side, s)
    ensures s.role == side && s.log <= Transcript(m, r)
    ensures s.status.Terminal() ==> s == FinalSession(m, r, side) && !r.ending.Asked?
    ensures s.status == WaitingApproval ==>
              || AsksInVain(m, side, s)
              || (s == FinalSession(m, r, side) && r.ending.Asked? && r.ending.decider == side)
  {
    FinalLog(m, r, side);
    hide LogOf;
  }

  lemma OpeningOnPath(m: Meeting, r: Run)
    requires r == Arrange(m, MAX_COUNTER_ROUNDS) && !r.ending.LeftOpen?
    ensures OnPath(m, r, Initiator, Start(RequestOf(m), RemoteNegotiation.Candidates(m.Offer(Initiator))))
  {
    RoundsExtend(m, MAX_COUNTER_ROUNDS, [m.Offer(Initiator)]);
    assert r.offers[..1] == [m.Offer(Initiator)];
    LogPrefix(m, r.offers, 1);
    var log := Start(RequestOf(m), RemoteNegotiation.Candidates(m.Offer(Initiator))).log;
    assert [m.Offer(Initiator)][..0] == [];
    assert LogOf(m, [m.Offer(Initiator)]) == LogOf(m, []) + [OfferWire(0, m.Offer(Initiator))] == log;
    hide LogOf, Rounds, FinalSession, Scheduling.Candidates;
  }

  lemma FirstOnPath(m: Meeting, r: Run, receiver: Side, w: Wire, handling: Handling)
    requires !r.ending.LeftOpen? && Sent(w, Transcript(m, r)) && w.sender == receiver.Other()
    ensures var after := Receive(None, w, handling);
            after.Some? ==> receiver.Responder? && OnPath(m, r, receiver, after.value)
  {
    if Receive(None, w, handling).Some? {
      assert w.sequence == 1;
      TranscriptNumbered(m, r, 0);
    }
    hide LogOf, Transcript, FinalSession;
  }

  lemma DeliveryFollows(m: Meeting, r: Run, sys: System, receiver: Side, w: Wire, handling: Handling)
    requires r == Arrange(m, MAX_COUNTER_ROUNDS) && Follows(m, r, sys) && r.ending.decider == Turn(|r.offers|)
    requires w in sys.relay && w.sender == receiver.Other()
    requires handling.Normally? ==>
               handling.reply == DecideRemoteReply(m.Party(receiver), m.Slots(receiver), w.delta)
    ensures Follows(m, r, sys.With(receiver, Receive(sys.Node(receiver), w, handling)))
  {
    hide OnPath, Transcript, Arrange, DecideRemoteReply, Receive, Sent;
    if sys.Node(receiver).None? {
      FirstOnPath(m, r, receiver, w, handling);
    } else {
      OnPathMeans(m, r, receiver, sys.Node(receiver).value);
      HeardOnPath(m, r, receiver, sys.Node(receiver).value, w, handling);
    }
  }

  lemma NextFollows(m: Meeting, r: Run, sys: System, step: Step)
    requires r == Arrange(m, MAX_COUNTER_ROUNDS) && Follows(m, r, sys) && r.ending.decider == Turn(|r.offers|)
    requires Possible(m, step)
    ensures Follows(m, r, Next(sys, step))
  {
    hide OnPath, Transcript, Arrange, DecideRemoteReply, Scheduling.Candidates;
    match step
    case StartNegotiation(_, _) =>
      OpeningOnPath(m, r);
    case Flush(side, index) =>
      var log := sys.Log(side);
      if index < |log| && log[index].sender == side {
        OnPathMeans(m, r, side, sys.Node(side).value);
        TranscriptNumbered(m, r, index);
        assert Sent(log[index], Transcript(m, r));
      }
    case Deliver(receiver, w, handling) =>
      if w in sys.relay && w.sender == receiver.Other() {
        DeliveryFollows(m, r, sys, receiver, w, handling);
      }
  }

  lemma {:induction false} EveryRunFollows(m: Meeting, steps: seq<Step>)
    requires Undisturbed(m, steps)
    ensures Follows(m, Arrange(m, MAX_COUNTER_ROUNDS), Execute(steps))
  {
    hide Arrange, Possible, Next, OnPath, Transcript;
    var r := Arrange(m, MAX_COUNTER_ROUNDS);
    RunEnds(m);
    if steps == [] {
      assert Execute(steps) == NOTHING;
    } else {
      var before := steps[..|steps| - 1];
      EveryRunFollows(m, before);
      NextFollows(m, r, Execute(before), steps[|steps| - 1]);
    }
  }

  lemma RunEnds(m: Meeting)
    ensures var r := Arrange(m, MAX_COUNTER_ROUNDS);
            !r.ending.LeftOpen? && r.ending.decider == Turn(|r.offers|)
  {
    hide Rounds, Scheduling.Candidates;
    RoundsExtend(m, MAX_COUNTER_ROUNDS, [m.Offer(Initiator)]);
    RoundsThrough(m, MAX_COUNTER_ROUNDS, |Arrange(m, MAX_COUNTER_ROUNDS).offers|);
  }

  /** Whatever the Relay loses, duplicates or reorders and whatever errors the nodes meet: as long as
      no owner decides, each node's log is the beginning of what the local driver's run amounts to,
      a session ends only as that run ends, and an owner is asked only what that run asks, or about
      nothing. */
  lemma AsyncFollowsLocal(m: Meeting, steps: seq<Step>, side: Side)
    requires Undisturbed(m, steps) && Execute(steps).Node(side).Some?
    ensures var r := Arrange(m, MAX_COUNTER_ROUNDS);
            var s := Execute(steps).Node(side).value;
            && !r.ending.LeftOpen? && s.log <= Transcript(m, r)
            && (s.status.Terminal() ==> s == FinalSession(m, r, side) && !r.ending.Asked?)
            && (s.status == WaitingApproval ==>
                  || AsksInVain(m, side, s)
                  || (s == FinalSession(m, r, side) && r.ending.Asked? && r.ending.decider == side))
  {
    hide Arrange, OnPath, Transcript, FinalSession, Execute, AsksInVain;
    EveryRunFollows(m, steps);
    OnPathMeans(m, Arrange(m, MAX_COUNTER_ROUNDS), side, Execute(steps).Node(side).value);
  }
}
