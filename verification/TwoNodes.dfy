/** Two honest nodes over a Relay that may lose, duplicate and reorder, with any decisions of
    their domains and of their owners. */
module TwoNodes {
  import opened Types
  import opened ProtocolState
  import opened RemoteNegotiation
  import opened RemoteBounds

  /** `relay` holds every envelope ever handed over: delivering any of them, any number of times
      and in any order, covers loss, duplication, reordering and resending after a crash. */
  datatype System = System(initiator: Option<Session>, responder: Option<Session>, relay: set<Wire>) {
    function Node(side: Side): Option<Session> {
      if side.Initiator? then initiator else responder
    }

    function With(side: Side, s: Option<Session>): System {
      if side.Initiator? then this.(initiator := s) else this.(responder := s)
    }

    function Log(side: Side): seq<Wire> {
      if Node(side).Some? then Node(side).value.log else []
    }
  }

  datatype Step =
    | StartNegotiation(request: Request, proposed: Delta)
    | Flush(side: Side, index: nat)
    | Deliver(receiver: Side, w: Wire, handling: Handling)
    | Decide(side: Side, resolution: Resolution, override: Option<Payload>)

  const NOTHING := System(None, None, {})

  /** One step; one that is not possible changes nothing. `Flush` sends a message of the sender's
      log, all of which are in its outbox; nothing keeps it from being sent again. */
  function Next(sys: System, step: Step): System {
    match step
    case StartNegotiation(request, proposed) =>
      if sys.initiator.Some? then sys else sys.(initiator := Some(Start(request, proposed)))
    case Flush(side, index) =>
      var log := sys.Log(side);
      if index < |log| && log[index].sender == side then sys.(relay := sys.relay + {log[index]}) else sys
    case Deliver(receiver, w, handling) =>
      if w in sys.relay && w.sender == receiver.Other()
      then sys.With(receiver, Receive(sys.Node(receiver), w, handling)) else sys
    case Decide(side, resolution, override) =>
      if sys.Node(side).None? then sys
      else sys.With(side, Some(Resolve(sys.Node(side).value, resolution, override)))
  }

  function Execute(steps: seq<Step>): System {
    if steps == [] then NOTHING else Next(Execute(steps[..|steps| - 1]), steps[|steps| - 1])
  }

  /** Between honest nodes a message's number tells who sent it: the initiator opens with two
      messages, and from then on the sides take turns. */
  function SenderAt(index: nat): Side {
    if index < 2 || index % 2 == 1 then Initiator else Responder
  }

  ghost predicate TakesTurns(log: seq<Wire>) {
    forall i :: 0 <= i < |log| ==> log[i].sender == SenderAt(i)
  }

  /** Whatever `log` holds of the peer's messages stands in the peer's own log. */
  ghost predicate HeardFrom(log: seq<Wire>, peer: Side, peerLog: seq<Wire>) {
    forall i :: 0 <= i < |log| && log[i].sender == peer ==> i < |peerLog| && peerLog[i] == log[i]
  }

  ghost predicate NodeInv(sys: System, side: Side) {
    && (sys.Node(side).Some? ==> SessionInv(sys.Node(side).value) && sys.Node(side).value.role == side)
    && TakesTurns(sys.Log(side))
    && HeardFrom(sys.Log(side), side.Other(), sys.Log(side.Other()))
  }

  ghost predicate Sent(w: Wire, log: seq<Wire>) {
    0 < w.sequence <= |log| && log[w.sequence - 1] == w
  }

  ghost predicate SystemInv(sys: System) {
    && NodeInv(sys, Initiator) && NodeInv(sys, Responder)
    && (sys.initiator.Some? ==> |sys.initiator.value.log| >= 2)
    && (forall w :: w in sys.relay ==> Sent(w, sys.Log(w.sender)))
  }

  /** What a step may do to one node's log: leave it, add the peer's next message, or add that
      and an answer, or only an own message; never out of turn. */
  ghost predicate Extends(before: seq<Wire>, after: seq<Wire>, side: Side, peerLog: seq<Wire>) {
    && before <= after && TakesTurns(after)
    && (forall i :: |before| <= i < |after| && after[i].sender == side.Other() ==>
         i < |peerLog| && peerLog[i] == after[i])
  }

  lemma ExtensionKeepsInv(sys: System, side: Side, s: Session)
    requires SystemInv(sys) && SessionInv(s) && s.role == side
    requires Extends(sys.Log(side), s.log, side, sys.Log(side.Other()))
    requires side.Initiator? ==> |s.log| >= 2
    ensures SystemInv(sys.With(side, Some(s)))
  {
    var after := sys.With(side, Some(s));
    hide SessionInv;
    assert after.Log(side) == s.log && after.Log(side.Other()) == sys.Log(side.Other());
    forall w | w in after.relay ensures Sent(w, after.Log(w.sender)) {
      assert Sent(w, sys.Log(w.sender));
    }
  }

  /** What processing one message adds to a log. */
  lemma ProcessAdds(s: Session, w: Wire, handling: Handling)
    requires SessionInv(s) && Refused(Some(s), w).None?
    ensures Process(s, w, handling) != s ==> Adds(s.log, w, Process(s, w, handling).log, s.role)
    ensures Process(s, w, handling).role == s.role
  {
    hide Orderly, CounterRounds;
  }

  lemma DeliverKeepsInv(sys: System, receiver: Side, w: Wire, handling: Handling)
    requires SystemInv(sys) && w in sys.relay && w.sender == receiver.Other()
    ensures SystemInv(sys.With(receiver, Receive(sys.Node(receiver), w, handling)))
  {
    var node := sys.Node(receiver);
    var result := Receive(node, w, handling);
    assert Sent(w, sys.Log(w.sender));
    ReceiveKeepsInv(node, w, handling);
    if result == node {
      assert sys.With(receiver, result) == sys;
    } else {
      ReceiveAdds(node, w, handling);
      hide SessionInv, Receive;
      if |result.value.log| == |sys.Log(receiver)| + 2 {
        NextTurn(sys, receiver, w);
      }
      ReceivedExtends(sys.Log(receiver), result.value.log, receiver, w, sys.Log(w.sender));
      ExtensionKeepsInv(sys, receiver, result.value);
    }
  }

  /** What an envelope with an effect adds to a log. */
  ghost predicate Adds(before: seq<Wire>, w: Wire, after: seq<Wire>, side: Side) {
    && w.sequence == |before| + 1 && before + [w] <= after
    && (|after| == |before| + 1
        || (|after| == |before| + 2 && after[|before| + 1].sender == side && w.kind in {PROPOSE, COUNTER}))
  }

  lemma ReceiveAdds(node: Option<Session>, w: Wire, handling: Handling)
    requires node.Some? ==> SessionInv(node.value)
    requires Receive(node, w, handling) != node
    ensures var s := Receive(node, w, handling).value;
            && s.role == (if node.Some? then node.value.role else Responder)
            && Adds(if node.Some? then node.value.log else [], w, s.log, s.role)
  {
    if node.Some? {
      ProcessAdds(node.value, w, handling);
    }
  }

  lemma ReceivedExtends(before: seq<Wire>, after: seq<Wire>, receiver: Side, w: Wire, peerLog: seq<Wire>)
    requires TakesTurns(before) && TakesTurns(peerLog)
    requires Sent(w, peerLog) && w.sender == receiver.Other() && Adds(before, w, after, receiver)
    requires |after| == |before| + 2 ==> SenderAt(w.sequence) == receiver
    ensures Extends(before, after, receiver, peerLog)
  {
    assert after[|before|] == (before + [w])[|before|] == w;
    assert peerLog[|before|] == w;
    forall i | 0 <= i < |after| ensures after[i].sender == SenderAt(i) {
      if i < |before| {
        assert after[i] == (before + [w])[i] == before[i];
      }
    }
  }

  /** After an offer of the peer it is this side's turn. */
  lemma NextTurn(sys: System, side: Side, w: Wire)
    requires SystemInv(sys) && Sent(w, sys.Log(side.Other())) && w.sender == side.Other()
    requires w.kind in {PROPOSE, COUNTER}
    ensures SenderAt(w.sequence) == side
  {
    hide SystemInv;
    PlaceOf(sys, side.Other(), w.sequence - 1);
  }

  lemma PlaceOf(sys: System, side: Side, i: nat)
    requires SystemInv(sys) && i < |sys.Log(side)|
    ensures InPlace(sys.Log(side), i) && sys.Log(side)[i].sender == SenderAt(i)
  {
    hide InPlace, CounterRounds, RequestPayload;
  }

  lemma DecideKeepsInv(sys: System, side: Side, resolution: Resolution, override: Option<Payload>)
    requires SystemInv(sys) && sys.Node(side).Some?
    ensures SystemInv(sys.With(side, Some(Resolve(sys.Node(side).value, resolution, override))))
  {
    hide Resolve, SessionInv;
    var s := sys.Node(side).value;
    var result := Resolve(s, resolution, override);
    ResolveKeepsInv(s, resolution, override);
    if result == s {
      assert sys.With(side, Some(result)) == sys;
    } else {
      ResolveAdds(s, resolution, override);
      var last := s.log[|s.log| - 1];
      assert sys.Log(side) == s.log;
      assert Sent(last, sys.Log(side.Other()));
      NextTurn(sys, side, last);
      assert forall i :: 0 <= i < |s.log| ==> result.log[i] == s.log[i];
      ExtensionKeepsInv(sys, side, result);
    }
  }

  lemma ResolveAdds(s: Session, resolution: Resolution, override: Option<Payload>)
    requires SessionInv(s) && Resolve(s, resolution, override) != s
    ensures var result := Resolve(s, resolution, override);
            && result.role == s.role && s.log <= result.log && |result.log| == |s.log| + 1
            && result.log[|s.log|].sender == s.role
            && s.log != [] && s.log[|s.log| - 1].sequence == |s.log|
            && s.log[|s.log| - 1].kind in {PROPOSE, COUNTER} && s.log[|s.log| - 1].sender == s.role.Other()
  {
    assert s.log != [] ==> InPlace(s.log, |s.log| - 1);
  }

  lemma StartKeepsSystemInv(sys: System, request: Request, proposed: Delta)
    requires SystemInv(sys) && sys.initiator.None?
    ensures SystemInv(sys.(initiator := Some(Start(request, proposed))))
  {
    StartKeepsInv(request, proposed);
    hide SessionInv;
    ExtensionKeepsInv(sys, Initiator, Start(request, proposed));
  }

  lemma NextKeepsInv(sys: System, step: Step)
    requires SystemInv(sys)
    ensures SystemInv(Next(sys, step))
  {
    match step
    case StartNegotiation(request, proposed) =>
      if sys.initiator.None? {
        StartKeepsSystemInv(sys, request, proposed);
      }
    case Flush(side, index) =>
      if index < |sys.Log(side)| && sys.Log(side)[index].sender == side {
        assert InPlace(sys.Log(side), index);
      }
    case Deliver(receiver, w, handling) =>
      if w in sys.relay && w.sender == receiver.Other() {
        DeliverKeepsInv(sys, receiver, w, handling);
      }
    case Decide(side, resolution, override) =>
      if sys.Node(side).Some? {
        DecideKeepsInv(sys, side, resolution, override);
      }
  }

  lemma {:induction false} EveryRunKeepsInv(steps: seq<Step>)
    ensures SystemInv(Execute(steps))
  {
    if steps != [] {
      EveryRunKeepsInv(steps[..|steps| - 1]);
      NextKeepsInv(Execute(steps[..|steps| - 1]), steps[|steps| - 1]);
    }
  }

  lemma LogsComparable(sys: System)
    requires SystemInv(sys)
    ensures sys.Log(Initiator) <= sys.Log(Responder) || sys.Log(Responder) <= sys.Log(Initiator)
  {
    var x, y := sys.Log(Initiator), sys.Log(Responder);
    assert forall i :: 0 <= i < |x| && i < |y| ==> x[i] == y[i];
  }

  /** Log agreement: in every run, one node's log is a prefix of the other's, and each carries
      the numbers 1..last_sequence. */
  lemma LogAgreement(steps: seq<Step>)
    ensures var sys := Execute(steps);
            sys.Log(Initiator) <= sys.Log(Responder) || sys.Log(Responder) <= sys.Log(Initiator)
    ensures forall side: Side, i :: 0 <= i < |Execute(steps).Log(side)| ==>
              Execute(steps).Log(side)[i].sequence == i + 1
    ensures forall side: Side :: Execute(steps).Node(side).Some? ==>
              Execute(steps).Node(side).value.lastSequence == |Execute(steps).Log(side)|
  {
    EveryRunKeepsInv(steps);
    LogsComparable(Execute(steps));
    forall side: Side, i | 0 <= i < |Execute(steps).Log(side)|
      ensures Execute(steps).Log(side)[i].sequence == i + 1
    {
      assert InPlace(Execute(steps).Log(side), i);
    }
  }

  /** No split decision: the two nodes never end differently, and when both hold an agreement it
      is the same one, human overrides included. */
  lemma NoSplitDecision(steps: seq<Step>)
    requires Execute(steps).initiator.Some? && Execute(steps).responder.Some?
    ensures var a, b := Execute(steps).initiator.value, Execute(steps).responder.value;
            && !(a.status == Agreed && b.status == Failed) && !(a.status == Failed && b.status == Agreed)
            && (a.agreement.Some? && b.agreement.Some? ==> a.agreement == b.agreement)
  {
    var sys := Execute(steps);
    EveryRunKeepsInv(steps);
    LogsComparable(sys);
    var a, b := sys.initiator.value, sys.responder.value;
    hide Execute, SessionInv;
    if a.log <= b.log {
      SameEnd(a, b);
    } else {
      SameEnd(b, a);
    }
  }

  /** Two sessions one of whose logs is a prefix of the other's cannot end differently. */
  lemma SameEnd(a: Session, b: Session)
    requires SessionInv(a) && SessionInv(b) && a.log <= b.log
    ensures !(a.status == Agreed && b.status == Failed) && !(a.status == Failed && b.status == Agreed)
    ensures a.agreement.Some? && b.agreement.Some? ==> a.agreement == b.agreement
  {
    hide CounterRounds, AgreementOn, AsksAbout;
    if a.status.Terminal() && b.status.Terminal() {
      ClosedIsMaximal(a.log, b.log);
    }
  }

  /** Nothing can follow a closed log. */
  lemma ClosedIsMaximal(x: seq<Wire>, y: seq<Wire>)
    requires x != [] && Closing(x[|x| - 1].kind)
    requires Orderly(y) && x <= y
    ensures x == y
  {
    assert InPlace(y, |x| - 1);
  }

  /** Neither owner is asked about a session that has ended. */
  ghost predicate QuestionsOpen(sys: System) {
    forall side: Side :: sys.Node(side).Some? && sys.Node(side).value.pending.Some? ==>
      sys.Node(side).value.status == WaitingApproval
  }

  /** No honest peer breaks off while this side's owner is asked: it is this side's turn. */
  lemma NobodyBreaksOff(sys: System, receiver: Side, w: Wire, handling: Handling)
    requires SystemInv(sys) && sys.Node(receiver).Some? && w in sys.relay && w.sender == receiver.Other()
    ensures !BreaksOff(sys.Node(receiver).value, Arrives(w, handling))
  {
    var s := sys.Node(receiver).value;
    assert Sent(w, sys.Log(w.sender));
    PlaceOf(sys, receiver.Other(), w.sequence - 1);
    if s.status == WaitingApproval {
      OfferWasSent(sys, receiver);
      NextTurn(sys, receiver, s.log[|s.log| - 1]);
    }
    hide SystemInv, InPlace;
  }

  /** The offer that a waiting node has heard last. */
  lemma OfferWasSent(sys: System, side: Side)
    requires SystemInv(sys) && sys.Node(side).Some? && sys.Node(side).value.status == WaitingApproval
    ensures var log := sys.Log(side);
            && log != [] && log[|log| - 1].sequence == |log| == sys.Node(side).value.lastSequence
            && log[|log| - 1].sender == side.Other() && log[|log| - 1].kind in {PROPOSE, COUNTER}
            && Sent(log[|log| - 1], sys.Log(side.Other()))
  {
    PlaceOf(sys, side, |sys.Log(side)| - 1);
    hide CounterRounds, Orderly;
  }

  /** Between honest nodes no question outlives its session. */
  lemma {:induction false} QuestionsEndWithTheWait(steps: seq<Step>)
    ensures QuestionsOpen(Execute(steps))
  {
    if steps != [] {
      var sys := Execute(steps[..|steps| - 1]);
      QuestionsEndWithTheWait(steps[..|steps| - 1]);
      EveryRunKeepsInv(steps[..|steps| - 1]);
      NextKeepsQuestionsOpen(sys, steps[|steps| - 1]);
    }
  }

  lemma NextKeepsQuestionsOpen(sys: System, step: Step)
    requires SystemInv(sys) && QuestionsOpen(sys)
    ensures QuestionsOpen(Next(sys, step))
  {
    hide Receive, Resolve, SessionInv, CounterRounds;
    forall side: Side | sys.Node(side).Some?
      ensures SessionInv(sys.Node(side).value) && sys.Node(side).value.role == side
    {
      assert NodeInv(sys, side);
    }
    match step
    case Deliver(receiver, w, handling) =>
      if w in sys.relay && w.sender == receiver.Other() {
        AppliedKeepsOpen(sys, receiver, Arrives(w, handling));
      }
    case Decide(side, resolution, override) =>
      if sys.Node(side).Some? {
        AppliedKeepsOpen(sys, side, Decided(resolution, override));
      }
    case _ =>
  }

  lemma AppliedKeepsOpen(sys: System, side: Side, e: Event)
    requires SystemInv(sys) && QuestionsOpen(sys)
    requires e.Arrives? ==> e.w in sys.relay && e.w.sender == side.Other()
    ensures Apply(sys.Node(side), e).Some? && Apply(sys.Node(side), e).value.pending.Some? ==>
              Apply(sys.Node(side), e).value.status == WaitingApproval
  {
    var node := sys.Node(side);
    assert NodeInv(sys, side);
    ApplyKeepsInv(node, e);
    if node.Some? {
      OutlivedExactly(node.value, e);
      if e.Arrives? {
        NobodyBreaksOff(sys, side, e.w, e.handling);
      }
    }
    hide SystemInv, CounterRounds, Orderly;
  }

  /** A node can be at most one message behind, once both have a session and the opening has been
      heard. */
  lemma AtMostOneInFlight(steps: seq<Step>)
    requires |Execute(steps).Log(Responder)| >= 2
    ensures var a, b := |Execute(steps).Log(Initiator)|, |Execute(steps).Log(Responder)|; -1 <= a - b <= 1
  {
    var sys := Execute(steps);
    EveryRunKeepsInv(steps);
    hide Execute, SessionInv;
    assert sys.Log(Responder)[0].sender == SenderAt(0);
    NotTwoBehind(sys, Initiator);
    NotTwoBehind(sys, Responder);
  }

  lemma NotTwoBehind(sys: System, ahead: Side)
    requires SystemInv(sys) && |sys.Log(ahead.Other())| >= 2
    ensures |sys.Log(ahead)| <= |sys.Log(ahead.Other())| + 1
  {
    hide SessionInv;
    var x, y := sys.Log(ahead), sys.Log(ahead.Other());
    var i := if SenderAt(|y|) == ahead.Other() then |y| else |y| + 1;
    assert SenderAt(i) == ahead.Other();
    if i < |x| {
      Heard(sys, ahead, i);
    }
  }

  lemma Heard(sys: System, side: Side, i: nat)
    requires SystemInv(sys) && i < |sys.Log(side)| && SenderAt(i) == side.Other()
    ensures i < |sys.Log(side.Other())|
  {
    hide SessionInv;
    assert sys.Log(side)[i].sender == side.Other();
  }
}
