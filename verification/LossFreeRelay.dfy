/** Two nodes over a Relay that loses nothing, when their answers depend on their logs alone. */
module LossFreeRelay {
  import opened Types
  import opened RemoteNegotiation
  import opened TwoNodes

  /** How a side handles an offer that it has just logged. */
  type Answer = (Side, seq<Wire>, Wire) -> Handling

  function OpenSession(side: Side, log: seq<Wire>): Session {
    Session(side, log, |log|, Open, None, None)
  }

  function HandlingOf(answer: Answer, node: Option<Session>, w: Wire): Handling {
    if node.Some? && w.kind in {PROPOSE, COUNTER}
    then answer(node.value.role, node.value.log + [w], w)
    else Unanswered
  }

  function Handover(answer: Answer, sys: System, sender: Side, index: nat): System
    requires index < |sys.Log(sender)|
  {
    var w := sys.Log(sender)[index];
    var receiver := sender.Other();
    Next(Next(sys, Flush(sender, index)), Deliver(receiver, w, HandlingOf(answer, sys.Node(receiver), w)))
  }

  /** The first message that one node has and the other lacks is sent and delivered. */
  function Delivery(answer: Answer, sys: System): System {
    var a, b := |sys.Log(Initiator)|, |sys.Log(Responder)|;
    if a > b then Handover(answer, sys, Initiator, b)
    else if b > a then Handover(answer, sys, Responder, a)
    else sys
  }

  function Deliveries(answer: Answer, sys: System, n: nat): System
    decreases n
  {
    if n == 0 then sys else Deliveries(answer, Delivery(answer, sys), n - 1)
  }

  lemma {:induction false} DeliveriesAtEnd(answer: Answer, sys: System, n: nat)
    ensures Deliveries(answer, sys, n + 1) == Delivery(answer, Deliveries(answer, sys, n))
    decreases n
  {
    hide Delivery;
    if n > 0 {
      DeliveriesAtEnd(answer, Delivery(answer, sys), n - 1);
    }
  }

  /** Deliveries change nothing once both nodes have the same messages. */
  lemma {:induction false} Quiet(answer: Answer, sys: System, n: nat)
    requires |sys.Log(Initiator)| == |sys.Log(Responder)|
    ensures Deliveries(answer, sys, n) == sys
    decreases n
  {
    if n > 0 {
      Quiet(answer, sys, n - 1);
    }
  }

  /** One side has said `w`, and the other, which has everything before it, lets it in. */
  ghost predicate Underway(sys: System, sender: Side, log: seq<Wire>, w: Wire) {
    && sys.Log(sender) == log + [w] && w.sender == sender && w.sequence == |log| + 1
    && sys.Node(sender.Other()) == Some(OpenSession(sender.Other(), log))
    && Refused(Some(OpenSession(sender.Other(), log)), w).None?
  }

  lemma UnderwayIsDelivered(answer: Answer, sys: System, sender: Side, log: seq<Wire>, w: Wire)
    requires Underway(sys, sender, log, w)
    ensures var receiver := sender.Other();
            var after := Delivery(answer, sys);
            var handling := HandlingOf(answer, sys.Node(receiver), w);
            && after.Node(sender) == sys.Node(sender)
            && after.Node(receiver) ==
                 if handling.RolledBack? then sys.Node(receiver)
                 else Some(Process(OpenSession(receiver, log), w, handling))
  {
    hide Refused, Process;
    assert sys.Log(sender)[|log|] == w;
    assert Delivery(answer, sys) == Handover(answer, sys, sender, |log|);
  }

  /** A closing word is let in after any offer. */
  lemma ClosingIsAdmitted(side: Side, log: seq<Wire>, w: Wire)
    requires log != [] && log[|log| - 1].kind in {PROPOSE, COUNTER}
    requires w.sequence == |log| + 1 && w.kind in {ACCEPT, REJECT, ERROR}
    ensures Refused(Some(OpenSession(side, log)), w).None?
  {
    hide CounterRounds;
  }
}
