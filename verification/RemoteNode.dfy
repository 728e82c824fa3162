/** A node's session row and its outbox, updated in place, against the functions of
    `RemoteNegotiation`. */
module RemoteNode {
  import opened Types
  import opened ProtocolState
  import opened RemoteNegotiation

  /** A queued envelope: it never changes, only whether and how often it has been sent. */
  datatype OutboxItem = OutboxItem(w: Wire, sent: bool, attempts: nat)

  function OwnMessages(log: seq<Wire>, role: Side): seq<Wire> {
    if log == [] then []
    else OwnMessages(log[..|log| - 1], role) + if log[|log| - 1].sender == role then [log[|log| - 1]] else []
  }

  function Wires(outbox: seq<OutboxItem>): seq<Wire> {
    seq(|outbox|, i requires 0 <= i < |outbox| => outbox[i].w)
  }

  /** The messages that have been handed to the Relay come before all others. */
  ghost predicate InOrder(outbox: seq<OutboxItem>) {
    forall i, j :: 0 <= i < j < |outbox| && outbox[j].sent ==> outbox[i].sent
  }

  lemma OwnMessagesGrow(log: seq<Wire>, w: Wire, role: Side)
    ensures OwnMessages(log + [w], role) == OwnMessages(log, role) + if w.sender == role then [w] else []
  {
    assert (log + [w])[..|log|] == log;
  }

  /** One pass over the pending items: each takes the Relay's next answer, and the first failure
      (or the lack of an answer) stops the pass. */
  function Flushed(outbox: seq<OutboxItem>, answers: seq<bool>): seq<OutboxItem> {
    if outbox == [] then []
    else
      var item := outbox[0];
      if item.sent then [item] + Flushed(outbox[1..], answers)
      else if answers != [] && answers[0]
      then [item.(sent := true, attempts := item.attempts + 1)] + Flushed(outbox[1..], answers[1..])
      else [item.(attempts := item.attempts + 1)] + outbox[1..]
  }

  /** Flushing resends nothing, changes no envelope, takes nothing back, and never lets a message
      overtake an earlier one. */
  lemma {:induction false} FlushKeepsOrder(outbox: seq<OutboxItem>, answers: seq<bool>)
    requires InOrder(outbox)
    ensures var after := Flushed(outbox, answers);
            && |after| == |outbox| && InOrder(after)
            && forall i :: 0 <= i < |outbox| ==>
                 after[i].w == outbox[i].w && (outbox[i].sent ==> after[i] == outbox[i])
  {
    if outbox != [] {
      var after := Flushed(outbox, answers);
      var rest := outbox[1..];
      if outbox[0].sent {
        FlushKeepsOrder(rest, answers);
        assert after == [outbox[0]] + Flushed(rest, answers);
      } else {
        assert forall i :: 0 <= i < |rest| ==> !rest[i].sent;
        if answers != [] && answers[0] {
          FlushKeepsOrder(rest, answers[1..]);
        }
      }
    }
  }

  lemma FlushKeepsWires(outbox: seq<OutboxItem>, answers: seq<bool>)
    requires InOrder(outbox)
    ensures InOrder(Flushed(outbox, answers)) && Wires(Flushed(outbox, answers)) == Wires(outbox)
  {
    FlushKeepsOrder(outbox, answers);
    hide Flushed, InOrder;
  }

  class RemoteSession {
    const role: Side
    var log: seq<Wire>
    var lastSequence: nat
    var status: Status
    var pending: Option<Question>
    var agreement: Option<Agreement>
    var outbox: seq<OutboxItem>

    function View(): Session
      reads this
    {
      Session(role, log, lastSequence, status, pending, agreement)
    }

    /** Every message of this side has been queued exactly once, in the order of the log. */
    ghost predicate Valid()
      reads this
    {
      Wires(outbox) == OwnMessages(log, role) && InOrder(outbox)
    }

    /** A session that this node starts. */
    constructor Initiate(request: Request, proposed: Delta)
      ensures Valid() && View() == Start(request, proposed)
    {
      role := Initiator;
      var first := Wire(Initiator, 1, REQUEST, Some(request), NoDelta);
      var second := Wire(Initiator, 2, PROPOSE, None, proposed);
      log, lastSequence, status, pending, agreement := [first, second], 2, Open, None, None;
      outbox := [OutboxItem(first, false, 0), OutboxItem(second, false, 0)];
      new;
      OwnMessagesGrow([], first, Initiator);
      OwnMessagesGrow([first], second, Initiator);
      assert [first] + [second] == log && [] + [first] == [first];
    }

    /** A session that the peer's REQUEST starts. */
    constructor Respond(w: Wire)
      requires Refused(None, w).None? && w.request.Some? && w.sender == Initiator
      ensures Valid() && Some(View()) == Receive(None, w, Unanswered)
    {
      role := Responder;
      log, lastSequence, status, pending, agreement, outbox := [w], w.sequence, Open, None, None, [];
      new;
      OwnMessagesGrow([], w, Responder);
      assert [] + [w] == log;
    }

    method SaveMessage(w: Wire)
      requires w.sequence >= 0
      modifies this`log, this`lastSequence
      ensures View() == Record(old(View()), w)
    {
      log := log + [w];
      lastSequence := w.sequence;
    }

    method SendReply(kind: MessageType, delta: Delta)
      requires Valid()
      modifies this`log, this`lastSequence, this`outbox
      ensures Valid() && View() == Say(old(View()), kind, delta)
    {
      var w := Wire(role, lastSequence + 1, kind, None, delta);
      OwnMessagesGrow(log, w, role);
      SaveMessage(w);
      outbox := outbox + [OutboxItem(w, false, 0)];
      assert Wires(outbox) == Wires(old(outbox)) + [w];
    }

    /** An incoming envelope. A refusal leaves everything as it was. */
    method HandleEnvelope(w: Wire, handling: Handling) returns (refusal: Option<Refusal>)
      requires Valid()
      modifies this
      ensures Valid() && Some(View()) == Receive(Some(old(View())), w, handling)
      ensures refusal == Refused(Some(old(View())), w)
    {
      hide CounterRounds, RequestPayload, AcceptedByPeer, React, OwnMessages, Wires, InOrder, LastKind;
      refusal := ValidateIncoming(status, lastSequence, w.kind, w.sequence, LastKind(log), CounterRounds(log));
      if refusal.Some? || handling.RolledBack? || w.sender == role {
        return;
      }
      if w.kind == ACCEPT {
        var agreed := AcceptedByPeer(log + [w], w.delta);
        if agreed.None? {
          return;
        }
        LogPeer(w);
        Agree(agreed.value);
      } else {
        LogPeer(w);
        if w.kind in {PROPOSE, COUNTER} {
          if handling.Normally? {
            Answer(handling.reply);
          }
        } else {
          status := Failed;
        }
      }
    }

    /** Logs a message of the peer; nothing is queued for it. */
    method LogPeer(w: Wire)
      requires Valid() && w.sequence >= 0 && w.sender != role
      modifies this`log, this`lastSequence
      ensures Valid() && View() == Record(old(View()), w)
    {
      OwnMessagesGrow(log, w, role);
      SaveMessage(w);
    }

    method Agree(payload: Agreement)
      modifies this`status, this`agreement
      ensures status == Agreed
      ensures agreement == if old(agreement).Some? then old(agreement) else Some(payload)
    {
      status := Agreed;
      if agreement.None? {
        agreement := Some(payload);
      }
    }

    method Answer(reply: Reply)
      requires Valid()
      modifies this
      ensures Valid() && View() == React(old(View()), reply)
    {
      hide CounterRounds, RequestPayload, AcceptedByReply, ProposalFor, OwnMessages, Wires, InOrder;
      var rounds := CounterRounds(log) + 1;
      match reply {
        case AskOwner(reason, ask) =>
          var request := RequestPayload(log);
          if request.Some? {
            var proposal := ProposalFor(request.value, ask);
            if proposal.Some? {
              status, pending := WaitingApproval, Some(Question(reason, proposal.value));
            }
          }
        case AutoAccept(payload) =>
          var terms := Terms(payload);
          var agreed := AcceptedByReply(log, payload);
          if agreed.Some? {
            SendReply(ACCEPT, terms);
            Agree(agreed.value);
          }
        case Decline(reason) =>
          SendReply(REJECT, Coded(Because(reason)));
          status := Failed;
        case CounterOffer(delta) =>
          if rounds < MAX_COUNTER_ROUNDS {
            SendReply(COUNTER, delta);
          } else {
            SendReply(ERROR, Coded(ExhaustedCode(RequestPayload(log))));
            status := Failed;
          }
      }
    }

    /** The owner's decision; refused when the session does not wait for it, or when the selection
        is not one that the approval offers. */
    method ResolveApproval(resolution: Resolution, override: Option<Payload>) returns (done: bool)
      requires Valid()
      modifies this
      ensures Valid() && View() == Resolve(old(View()), resolution, override)
      ensures done ==> pending.None? && |log| == |old(log)| + 1
      ensures !done ==> View() == old(View()) && outbox == old(outbox)
    {
      hide ApprovalReply, AgreementByOwner, OwnMessages, Wires, InOrder;
      if status != WaitingApproval || pending.None? {
        return false;
      }
      var reply := ApprovalReply(pending.value.proposal, resolution, override);
      if reply.None? {
        return false;
      }
      var (kind, delta) := reply.value;
      if kind == ACCEPT {
        var agreed := AgreementByOwner(pending.value.proposal, delta);
        if agreed.None? {
          return false;
        }
        SendReply(ACCEPT, delta);
        pending := None;
        Agree(agreed.value);
      } else {
        SendReply(kind, delta);
        pending := None;
        status := if kind == COUNTER then Open else Failed;
      }
      done := true;
    }

    /** Sends what is pending until the Relay fails to take a message. */
    method FlushOutbox(answers: seq<bool>)
      requires Valid()
      modifies this`outbox
      ensures Valid() && outbox == Flushed(old(outbox), answers)
    {
      hide InOrder, Wires, OwnMessages, Flushed, LeadsTo;
      ghost var goal := Flushed(outbox, answers);
      FlushKeepsWires(outbox, answers);
      LeadsToGoal(outbox, answers);
      var i, used := 0, 0;
      var failed := false;
      assert answers[0..] == answers;
      while i < |outbox| && !failed
        invariant 0 <= i <= |outbox| && used <= |answers|
        invariant if failed then outbox == goal else LeadsTo(outbox, i, answers[used..], goal)
        decreases |outbox| - i, !failed
      {
        var item := outbox[i];
        if item.sent {
          SentStep(outbox, i, answers[used..], goal);
          i := i + 1;
        } else if used < |answers| && answers[used] {
          TakenStep(outbox, i, answers[used..], goal);
          assert answers[used..][1..] == answers[used + 1..];
          outbox := outbox[i := item.(sent := true, attempts := item.attempts + 1)];
          i, used := i + 1, used + 1;
        } else {
          FailedStep(outbox, i, answers[used..], goal);
          outbox := outbox[i := item.(attempts := item.attempts + 1)];
          failed := true;
        }
      }
      if !failed {
        NothingLeft(outbox, answers[used..], goal);
      }
    }
  }

  /** Flushing from item `i` on ends in `goal`. */
  ghost predicate LeadsTo(outbox: seq<OutboxItem>, i: nat, answers: seq<bool>, goal: seq<OutboxItem>) {
    i <= |outbox| && outbox[..i] + Flushed(outbox[i..], answers) == goal
  }

  lemma LeadsToGoal(outbox: seq<OutboxItem>, answers: seq<bool>)
    ensures LeadsTo(outbox, 0, answers, Flushed(outbox, answers))
  {
    assert outbox[0..] == outbox;
  }

  lemma NothingLeft(outbox: seq<OutboxItem>, answers: seq<bool>, goal: seq<OutboxItem>)
    requires LeadsTo(outbox, |outbox|, answers, goal)
    ensures outbox == goal
  {
  }

  lemma FlushFirst(rest: seq<OutboxItem>, answers: seq<bool>)
    requires rest != []
    ensures var item := rest[0];
            Flushed(rest, answers) ==
              if item.sent then [item] + Flushed(rest[1..], answers)
              else if answers != [] && answers[0]
              then [item.(sent := true, attempts := item.attempts + 1)] + Flushed(rest[1..], answers[1..])
              else [item.(attempts := item.attempts + 1)] + rest[1..]
  {
  }

  lemma Reassembled(outbox: seq<OutboxItem>, i: nat, after: OutboxItem, tail: seq<OutboxItem>)
    requires i < |outbox|
    ensures var changed := outbox[i := after];
            && outbox[..i] + ([after] + tail) == changed[..i + 1] + tail
            && changed[i + 1..] == outbox[i + 1..]
            && changed == outbox[..i] + ([after] + outbox[i + 1..])
            && outbox[i..][0] == outbox[i] && outbox[i..][1..] == outbox[i + 1..]
  {
  }

  lemma SentStep(outbox: seq<OutboxItem>, i: nat, answers: seq<bool>, goal: seq<OutboxItem>)
    requires i < |outbox| && LeadsTo(outbox, i, answers, goal) && outbox[i].sent
    ensures LeadsTo(outbox, i + 1, answers, goal)
  {
    hide Flushed;
    FlushFirst(outbox[i..], answers);
    Reassembled(outbox, i, outbox[i], Flushed(outbox[i + 1..], answers));
    assert outbox[i := outbox[i]] == outbox;
  }

  lemma TakenStep(outbox: seq<OutboxItem>, i: nat, answers: seq<bool>, goal: seq<OutboxItem>)
    requires i < |outbox| && LeadsTo(outbox, i, answers, goal)
    requires !outbox[i].sent && answers != [] && answers[0]
    ensures LeadsTo(outbox[i := outbox[i].(sent := true, attempts := outbox[i].attempts + 1)], i + 1, answers[1..],
              goal)
  {
    hide Flushed;
    FlushFirst(outbox[i..], answers);
    Reassembled(outbox, i, outbox[i].(sent := true, attempts := outbox[i].attempts + 1),
      Flushed(outbox[i + 1..], answers[1..]));
  }

  lemma FailedStep(outbox: seq<OutboxItem>, i: nat, answers: seq<bool>, goal: seq<OutboxItem>)
    requires i < |outbox| && LeadsTo(outbox, i, answers, goal)
    requires !outbox[i].sent && !(answers != [] && answers[0])
    ensures outbox[i := outbox[i].(attempts := outbox[i].attempts + 1)] == goal
  {
    hide Flushed;
    FlushFirst(outbox[i..], answers);
    Reassembled(outbox, i, outbox[i].(attempts := outbox[i].attempts + 1), []);
  }

  /** How many items of these are still to be sent. */
  function Pending(outbox: seq<OutboxItem>): nat {
    if outbox == [] then 0 else (if outbox[0].sent then 0 else 1) + Pending(outbox[1..])
  }

  /** How many messages the Relay takes before it fails for the first time. */
  function Taken(answers: seq<bool>): nat {
    if answers != [] && answers[0] then 1 + Taken(answers[1..]) else 0
  }

  /** A pass sends as many pending items as the Relay takes, tries one more, and touches no other. */
  lemma {:induction false} FlushExactly(outbox: seq<OutboxItem>, answers: seq<bool>, i: nat)
    requires i < |outbox|
    ensures |Flushed(outbox, answers)| == |outbox|
    ensures var item, after := outbox[i], Flushed(outbox, answers)[i];
            var before := Pending(outbox[..i]);
            && after.w == item.w
            && (after.sent <==> item.sent || before < Taken(answers))
            && after.attempts == item.attempts + if !item.sent && before <= Taken(answers) then 1 else 0
  {
    var rest := outbox[1..];
    if i > 0 {
      assert outbox[..i][1..] == rest[..i - 1];
      if outbox[0].sent {
        FlushExactly(rest, answers, i - 1);
      } else if answers != [] && answers[0] {
        FlushExactly(rest, answers[1..], i - 1);
      }
    } else {
      FlushedLength(outbox, answers);
    }
  }

  lemma {:induction false} FlushedLength(outbox: seq<OutboxItem>, answers: seq<bool>)
    ensures |Flushed(outbox, answers)| == |outbox|
  {
    if outbox != [] {
      FlushedLength(outbox[1..], answers);
      if answers != [] {
        FlushedLength(outbox[1..], answers[1..]);
      }
    }
  }
}
