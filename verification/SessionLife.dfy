/** The whole life of a local session: a run of a domain's driver, and then whatever attempts are
    made to resolve the approval that it may have left behind. */
module SessionLife {
  import opened Types
  import opened LocalSession
  import CostSplit
  import CostSplitDriver
  import MeetingSchedule

  /** The owner approves or rejects, or somebody looks at the approval. */
  datatype Attempt = Decide(approve: bool, now: int) | Look(now: int)

  /** What one attempt makes of a pending approval. */
  function After(expiresAt: int, a: Attempt): ApprovalStatus {
    if expiresAt <= a.now then Expired
    else if a.Look? then Pending
    else if a.approve then Approved
    else Rejected
  }

  /** What any number of attempts make of it: one that is no longer pending stays as it is. */
  function Outcome(expiresAt: int, attempts: seq<Attempt>): ApprovalStatus {
    if attempts == [] then Pending
    else
      var before := Outcome(expiresAt, attempts[..|attempts| - 1]);
      if before != Pending then before else After(expiresAt, attempts[|attempts| - 1])
  }

  /** The first attempt that has an effect decides. */
  lemma {:induction false} FirstEffectDecides(expiresAt: int, attempts: seq<Attempt>, i: nat)
    requires i < |attempts| && After(expiresAt, attempts[i]) != Pending
    requires forall j :: 0 <= j < i ==> After(expiresAt, attempts[j]) == Pending
    ensures Outcome(expiresAt, attempts) == After(expiresAt, attempts[i])
  {
    var n := |attempts| - 1;
    if i < n {
      FirstEffectDecides(expiresAt, attempts[..n], i);
    } else {
      NoEffect(expiresAt, attempts[..n]);
    }
  }

  lemma {:induction false} NoEffect(expiresAt: int, attempts: seq<Attempt>)
    requires forall j :: 0 <= j < |attempts| ==> After(expiresAt, attempts[j]) == Pending
    ensures Outcome(expiresAt, attempts) == Pending
  {
    if attempts != [] {
      NoEffect(expiresAt, attempts[..|attempts| - 1]);
    }
  }

  /** The message, if any, that resolves the approval of a session with `n` messages. */
  function Closing(n: nat, decider: Side, payload: Payload, outcome: ApprovalStatus): seq<Message> {
    if outcome == Pending then [] else [Resolution(n + 1, decider, payload, outcome)]
  }

  /** How a session that waited for its owner has come out. */
  ghost predicate CameOut(s: Session, before: seq<Message>, decider: Side, payload: Payload, outcome: ApprovalStatus)
    reads s
  {
    && s.messages == before + Closing(|before|, decider, payload, outcome)
    && (s.status == match outcome case Pending => WaitingApproval case Approved => Agreed case _ => Failed)
    && s.agreements == (if outcome == Approved then [payload] else [])
  }

  method TryToResolve(s: Session, attempts: seq<Attempt>)
    requires s.Settled()
    modifies s, s.pending
    ensures s.Settled()
    ensures old(s.pending) == null ==>
              s.status == old(s.status) && s.messages == old(s.messages) && s.agreements == old(s.agreements)
              && s.failure == old(s.failure) && s.pending == null
    ensures old(s.pending) != null ==>
              var a := old(s.pending);
              CameOut(s, old(s.messages), a.decider, a.payload, Outcome(a.expiresAt, attempts))
    ensures s.pending == null || s.pending == old(s.pending)
  {
    var approval := s.pending;
    if approval == null {
      return;
    }
    ghost var before := s.messages;
    assert before + [] == before;
    for i := 0 to |attempts|
      invariant s.Settled()
      invariant approval.status == Outcome(approval.expiresAt, attempts[..i])
      invariant s.pending == if approval.status == Pending then approval else null
      invariant CameOut(s, before, approval.decider, approval.payload, approval.status)
    {
      assert attempts[..i + 1][..i] == attempts[..i];
      match attempts[i] {
        case Decide(approve, now) => var _ := s.ResolveApproval(approval, approve, now);
        case Look(now) => s.LookAt(approval, now);
      }
    }
    assert attempts[..|attempts|] == attempts;
  }

  /** Attempts after a run: the run's messages, then at most one that resolves its approval. */
  method LifeOfCostSplit(s: Session, d: CostSplit.Deal, limit: nat, expiresAt: int, attempts: seq<Attempt>)
    requires s.Fresh()
    modifies s
    ensures s.Settled()
    ensures var r := CostSplit.Negotiate(d, limit);
            if r.ending.Escalation?
            then CameOut(s, CostSplitDriver.Transcript(r), r.ending.decider, AgreedShare(r.ending.share),
              Outcome(expiresAt, attempts))
            else CostSplitDriver.Records(s, r)
  {
    hide CostSplit.Negotiate, CostSplitDriver.Transcript, Outcome;
    CostSplitDriver.RunCostSplit(s, d, limit, expiresAt);
    TryToResolve(s, attempts);
  }

  method LifeOfMeeting(s: Session, m: MeetingSchedule.Meeting, limit: nat, expiresAt: int, attempts: seq<Attempt>)
    requires s.Fresh()
    modifies s
    ensures s.Settled()
    ensures var r := MeetingSchedule.Arrange(m, limit);
            if r.ending.Asked?
            then CameOut(s, MeetingSchedule.Transcript(r), r.ending.decider, AgreedSlot(r.ending.slot),
              Outcome(expiresAt, attempts))
            else MeetingSchedule.Records(s, r)
  {
    hide MeetingSchedule.Arrange, MeetingSchedule.Transcript, Outcome;
    MeetingSchedule.RunNegotiation(s, m, limit, expiresAt);
    TryToResolve(s, attempts);
  }
}
