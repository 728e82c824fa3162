/** What the state machine lets into a session, and what it says when it does not. */
module Admission {
  import opened Types
  import opened ProtocolState
  import opened RemoteNegotiation
  import opened RemoteBounds
  import opened ExtraCounter

  /** What may come next, by what has been said: an opening first, then an answer or another COUNTER, as
      long as there are fewer than three. */
  predicate MayFollow(log: seq<Wire>, kind: MessageType) {
    if |log| == 1 then kind in {PROPOSE, REJECT, ERROR}
    else kind in {ACCEPT, REJECT, ERROR} || kind == COUNTER
  }

  lemma LastAdmits(s: Session, kind: MessageType)
    requires SessionInv(s) && !s.status.Terminal()
    ensures kind in AllowedAfter(LastKind(s.log)) <==> MayFollow(s.log, kind)
    ensures |s.log| >= 2 ==> CounterRounds(s.log) == |s.log| - 2
    ensures |s.log| == 1 ==> CounterRounds(s.log) == 0
    ensures s.log != [] && s.lastSequence == |s.log|
  {
    OrderlyLog(s);
    CountersByLength(s.log);
    assert InPlace(s.log, |s.log| - 1);
    hide CounterRounds;
  }

  /** A message is let into a session exactly when it is the next one, the session is still open, and it
      may follow; while an owner is asked only a REJECT or an ERROR is. */
  lemma AdmittedExactly(s: Session, w: Wire)
    requires SessionInv(s)
    ensures Refused(Some(s), w).None? <==>
              && (s.status == Open || (s.status == WaitingApproval && w.kind in {REJECT, ERROR}))
              && w.sequence == |s.log| + 1 && MayFollow(s.log, w.kind)
              && (w.kind == COUNTER ==> |s.log| <= 4)
  {
    if !s.status.Terminal() {
      LastAdmits(s, w.kind);
    }
    hide SessionInv, CounterRounds, LastKind, AllowedAfter, MayFollow;
    assert w.kind == COUNTER && s.status == Open && |s.log| == 1 ==> !MayFollow(s.log, COUNTER) by {
      NoCounterFirst(s.log);
    }
  }

  lemma NoCounterFirst(log: seq<Wire>)
    ensures |log| == 1 ==> !MayFollow(log, COUNTER)
  {
  }

  /** Why a message is refused: the first of these that applies. */
  lemma RefusedFor(s: Session, w: Wire)
    requires SessionInv(s)
    ensures var refusal := Refused(Some(s), w);
            if s.status in {Agreed, Failed} then refusal == Some(SessionEnded)
            else if s.status == WaitingApproval && w.kind !in {REJECT, ERROR} then refusal == Some(AwaitingApproval)
            else if w.sequence != |s.log| + 1 then refusal == Some(SequenceGap)
            else if !MayFollow(s.log, w.kind) then refusal == Some(WrongOrder)
            else if w.kind == COUNTER && |s.log| > 4 then refusal == Some(TooManyCounters)
            else refusal == None
  {
    if !s.status.Terminal() {
      LastAdmits(s, w.kind);
    }
    NoCounterFirst(s.log);
    hide SessionInv, CounterRounds, LastKind, AllowedAfter, MayFollow;
  }

  /** A session begins with a REQUEST that is numbered 1, and with nothing else. */
  lemma BegunExactly(w: Wire, handling: Handling)
    ensures Refused(None, w).None? <==> w.kind == REQUEST && w.sequence == 1
    ensures Receive(None, w, handling).Some? <==>
              && w.kind == REQUEST && w.sequence == 1 && w.sender == Initiator && w.request.Some?
              && !handling.RolledBack?
  {
  }

  /** A message has an effect exactly when it is admitted, comes from the peer, meets no error that rolls
      it back, and, if it accepts, names terms of the kind that was asked for. */
  lemma HeardExactly(s: Session, w: Wire, handling: Handling)
    requires SessionInv(s)
    ensures Receive(Some(s), w, handling) != Some(s) <==>
              && Refused(Some(s), w).None? && w.sender == s.role.Other() && !handling.RolledBack?
              && (w.kind == ACCEPT && s.log[0].request.value.CostSplitRequest? ==>
                    w.delta.Terms? && w.delta.payload.AgreedShare?)
  {
    hide CounterRounds, Orderly, LastKind, AllowedAfter, React, AsksAbout;
    if Refused(Some(s), w).None? {
      OrderlyLog(s);
      RecordKeepsShape(s, w);
      RequestIsFirst(Record(s, w).log);
      if w.kind in {PROPOSE, COUNTER} {
        LogGrows(s, w, handling);
      }
    }
  }

  lemma LogGrows(s: Session, w: Wire, handling: Handling)
    requires SessionInv(s) && Refused(Some(s), w).None? && w.kind in {PROPOSE, COUNTER}
    ensures |Process(s, w, handling).log| > |s.log|
  {
    hide CounterRounds, Orderly, LastKind, AllowedAfter;
  }
}
