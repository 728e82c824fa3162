/** The two forms of a negotiation say the same, message by message: what the local driver writes into
    its session and what the nodes send each other, for the same run. */
module FormsSayTheSame {
  import opened Types
  import LocalSession
  import opened RemoteNegotiation
  import CostSplit
  import CostSplitDriver
  import RemoteCostSplit
  import MeetingSchedule
  import RemoteMeeting

  /** The last message of a finished split, in either form, when no owner is asked. */
  lemma SplitEndsWith(d: CostSplit.Deal, r: CostSplit.Run, side: Side)
    requires r.ending.Agreement? || r.ending.Rejection?
    ensures var local, log := CostSplitDriver.Transcript(r), RemoteCostSplit.FinalSession(d, r, side).log;
            && |local| == |r.counters| + 2 && |log| == |r.counters| + 3
            && var said, sent := local[|local| - 1], log[|log| - 1];
               && said.sequence == |local| && sent.sequence == |log|
               && said.sender == sent.sender == r.ending.decider && sent.request == None
               && (r.ending.Agreement? ==>
                     && said.kind == sent.kind == ACCEPT
                     && said.delta == LocalSession.Accepted(AgreedShare(r.ending.share))
                     && sent.delta == Terms(AgreedShare(r.ending.share)))
               && (r.ending.Rejection? ==>
                     && said.kind == sent.kind == REJECT
                     && said.delta == LocalSession.Coded(Because(r.ending.reason))
                     && sent.delta == Coded(Because(r.ending.reason)))
  {
    hide RemoteCostSplit.LogOf;
  }

  /** The counters in between: the parties take turns, the responder first, and name the same amounts. */
  lemma {:induction false} SplitCountersAgree(d: CostSplit.Deal, counters: seq<int>, i: nat)
    requires i < |counters|
    ensures var said, sent := CostSplitDriver.Opened(counters)[i + 1], RemoteCostSplit.LogOf(d, counters)[i + 2];
            && said.sequence == i + 2 && sent.sequence == i + 3 && said.kind == sent.kind == COUNTER
            && said.sender == sent.sender == (if i % 2 == 0 then Responder else Initiator)
            && said.delta == LocalSession.ProposedShare(counters[i]) && sent.delta == Proposed(counters[i] as real)
  {
    var n := |counters| - 1;
    if i < n {
      SplitCountersAgree(d, counters[..n], i);
      assert CostSplitDriver.Opened(counters)[i + 1] == CostSplitDriver.Opened(counters[..n])[i + 1];
    }
  }

  /** Both begin with the initiator's REQUEST; a node adds the ask as its own PROPOSE. */
  lemma SplitOpensWith(d: CostSplit.Deal, r: CostSplit.Run, side: Side)
    requires !r.ending.LeftOpen?
    ensures var local, log := CostSplitDriver.Transcript(r), RemoteCostSplit.FinalSession(d, r, side).log;
            && local != [] && |log| >= 2
            && local[0] == LocalSession.Message(1, Initiator, REQUEST, LocalSession.NoDelta)
            && log[0].kind == REQUEST && log[0].sequence == 1 && log[0].sender == Initiator
            && log[0].request == Some(CostSplitRequest(Text(0), d.total, None, None, d.asked))
            && log[1] == Wire(Initiator, 2, PROPOSE, None, Proposed(d.asked))
  {
    OpeningWires(d, r.counters);
    hide RemoteCostSplit.LogOf;
  }

  lemma {:induction false} OpeningWires(d: CostSplit.Deal, counters: seq<int>)
    ensures var log := RemoteCostSplit.LogOf(d, counters);
            && log[0] == Wire(Initiator, 1, REQUEST, Some(CostSplitRequest(Text(0), d.total, None, None, d.asked)),
                 NoDelta)
            && log[1] == Wire(Initiator, 2, PROPOSE, None, Proposed(d.asked))
  {
    if counters != [] {
      OpeningWires(d, counters[..|counters| - 1]);
    }
  }

  /** An owner who is asked: the local driver notes it as a message, a node sends none. */
  lemma SplitAsks(d: CostSplit.Deal, r: CostSplit.Run)
    requires r.ending.Escalation?
    ensures var local, log := CostSplitDriver.Transcript(r), RemoteCostSplit.FinalSession(d, r, r.ending.decider).log;
            && |local| == |r.counters| + 2 && |log| == |r.counters| + 2
            && local[|local| - 1] == LocalSession.Message(|local|, r.ending.decider, REQUEST_APPROVAL,
                                                          LocalSession.Escalated(r.ending.reason))
    ensures var node := RemoteCostSplit.FinalSession(d, r, r.ending.decider);
            && node.status == WaitingApproval && node.pending.Some? && node.pending.value.reason == r.ending.reason
            && node.pending.value.proposal.CostProposal? && node.pending.value.proposal.share == r.ending.share
  {
    hide RemoteCostSplit.LogOf;
  }

  /** The last message of a finished meeting, in either form, when no owner is asked. */
  lemma MeetingEndsWith(m: MeetingSchedule.Meeting, r: MeetingSchedule.Run, side: Side)
    requires r.ending.Settled? || r.ending.NoCommonSlot?
    ensures var local, log := MeetingSchedule.Transcript(r), RemoteMeeting.FinalSession(m, r, side).log;
            && |local| == |log| == |r.offers| + 2
            && var said, sent := local[|local| - 1], log[|log| - 1];
               && said.sequence == sent.sequence == |local| && said.sender == sent.sender == r.ending.decider
               && (r.ending.Settled? ==>
                     && said.kind == sent.kind == ACCEPT
                     && said.delta == LocalSession.Accepted(AgreedSlot(r.ending.slot))
                     && sent.delta == Terms(AgreedSlot(r.ending.slot)))
               && (r.ending.NoCommonSlot? ==>
                     && said.kind == sent.kind == ERROR
                     && said.delta == LocalSession.Coded(NoAvailableSlot) && sent.delta == Coded(NoAvailableSlot))
  {
    hide RemoteMeeting.LogOf;
  }

  /** The offers before it: a PROPOSE of the initiator, and COUNTERs in turn, of the same slots. */
  lemma {:induction false} MeetingOffersAgree(m: MeetingSchedule.Meeting, offers: seq<seq<Slot>>, i: nat)
    requires i < |offers|
    ensures var said, sent := MeetingSchedule.Opened(offers)[i + 1], RemoteMeeting.LogOf(m, offers)[i + 1];
            && said.sequence == sent.sequence == i + 2
            && said.kind == sent.kind == (if i == 0 then PROPOSE else COUNTER)
            && said.sender == sent.sender == (if i % 2 == 0 then Initiator else Responder)
            && said.delta == LocalSession.CandidateSlots(offers[i]) && sent.delta == Candidates(offers[i])
  {
    var n := |offers| - 1;
    if i < n {
      MeetingOffersAgree(m, offers[..n], i);
      assert MeetingSchedule.Opened(offers)[i + 1] == MeetingSchedule.Opened(offers[..n])[i + 1];
    }
  }
}
