# ENISHI negotiation: verified model

ENISHI lets two people's agents negotiate for them. This project models its bilateral negotiation
engine and the store-and-forward protocol that carries it, and proves what they promise.

* **`cost.split`** (`CostSplitStrategy`, `CostSplitDecisions`, `CostSplit`, `CostSplitProperties`,
  `CostSplitDriver`).
  Two agents with reservation prices concede proportionally, in rounded cents, up to a round limit.
  Amounts are counted in cents: a rounded amount is an integer, an unrounded one a real. Ratios are
  reals in [0, 1]. Rounding goes to the nearest cent, ties to even. Guards and the high-value rule
  are inputs that may differ from round to round. The round limit is a parameter everywhere.
* **The two-node protocol** (`ProtocolState`, `RemoteNegotiation`, `RemoteBounds`, `Admission`,
  `OwnerDecisions`, `TwoNodes`, `RemoteNode`, `Replay`). `RemoteNegotiation` is one node's step as a function; `RemoteNode` is the
  node that updates its session row and outbox in place, proved against it; `TwoNodes` runs two of
  them over a Relay that may lose, duplicate and reorder, with any decisions of the domains and of
  the owners. A step may also record a message and then fail to answer it, because reading a policy
  commits half-way through the handler (`services/local-core/enishi_core/services/policies.py`, lines 33-39).
* **Both forms compared** (`LossFreeRelay`, `RemoteCostSplit`, `RemoteCostSplitLimits`,
  `AsyncCostSplit`, `RemoteMeeting`, `RemoteMeetingLimits`, `AsyncMeeting`,
  `FormsSayTheSame`). Each domain exists twice in the repository, as a loop over one database and as
  reactions to single messages; these modules say exactly when the two come to the same.
* **What becomes of agreements and calendars** (`SplitTerms`, `MeetingTerms`, `Disclosure`,
  `ExtraCounter`, `StrandedMeeting`). Where agreed terms come from in any run with any decisions of
  the owners, what a disclosure policy must let through, and what the COUNTER of an owner does.
* **The Relay mailbox** (`Mailbox`, `MailboxPage`, `MailboxBackends`, `MailboxRuns`, `MailboxRows`,
  `MailboxEquivalence`, `MailboxSizes`, `MailboxAcks`, `MailboxPages`, `MailboxWalks`,
  `MailboxLimits`, `MailboxVerdicts`). Two backends, each as a class that works in place and as a state machine, with
  expiry, three capacity limits, a rate limit and cursor pagination. Sizes are declared by the caller.
* **Meetings** (`Scheduling`, `MeetingSchedule`, `CalendarClock`, `MeetingScheduleLimits`). Free slots on a grid of
  half-hours, intersection by instants, and the multi-round driver. Times are whole minutes and each
  side has a fixed UTC offset.
* **Local sessions** (`LocalSession`, `SessionLife`). Messages, agreements and approvals through the
  whole life of a session.

## Where the code does not do what one might expect

Each of these is proved, with the exact condition where there is one.

* The distributed `cost.split` refines the loop only for openings in whole cents (or such as round
  to nothing). The loop rounds the ask before the initiator bargains with it, while a node finds the
  unrounded ask in its own log, and uses it as its last offer and its floor
  (`RemoteCostSplitLimits.OpeningIsExact`).
* It refines the loop only for round limits up to 3: the protocol's own limit turns the third
  counter into an ERROR (`RemoteCostSplitLimits.LimitIsExact`).
* A remote negotiation is not started when the initiator's owner has not delegated it; the local
  drivers ask for the initiator's delegation only when its turn comes, and can have agreed before
  (`RemoteCostSplit.DistributedRefinesLocal`, `RemoteCostSplitLimits.UndelegatedStartDiffers`,
  `RemoteMeeting.FormsAgreeWhenDisclosed`, `RemoteMeetingLimits.UndelegatedStartDiffers`).
* A node works on the memories that its owner's policy discloses to the peer, and the default policy
  discloses none, so that nodes can agree on a slot at which both owners are busy
  (`RemoteMeetingLimits.BusySlotAgreed`). It takes a policy that hides busy time which the disclosed
  memories do not cover (`Disclosure.PolicyIsExact`, `Disclosure.FormsNeedPolicy`).
* A remote meeting evaluates the owner's rules even when there is no common slot. An owner who has
  stated a preferred time range is then asked about nothing, where the local driver counters
  (`RemoteMeeting.FormsAgreeWhenDisclosed`, `RemoteMeeting.UnreservedExactly`).
* Five candidates are offered out of up to 20, so a common slot can be missed
  (`MeetingScheduleLimits.CommonSlotMissed`); never when one side has at most five.
* A COUNTER that an owner approves is sent without a round check, so a session can hold one COUNTER
  more than MAX_COUNTER_ROUNDS (`ExtraCounter.OverLimitExactly`), though never in a split
  (`ExtraCounter.SplitsStayWithin`). An honest peer refuses that COUNTER, and the session is stranded,
  open on both sides for good (`ExtraCounter.StrandedForGood`). Two owners who are asked about nothing
  and keep approving get there (`StrandedMeeting.ApprovalsStrand`).
* An owner's override of a share binds the peer without its reservation being asked
  (`SplitTerms.OverrideBinds`); without one the agreed share is an offer (`SplitTerms.AgreedShareStood`).
* A question to an owner can outlive the session: an incoming REJECT or ERROR does not clear
  `pending_approval_id`. It takes a peer that breaks off during the wait, out of its turn
  (`RemoteBounds.OutlivedExactly`, `RemoteBounds.QuestionMayOutlive`); between honest nodes it never
  happens (`TwoNodes.QuestionsEndWithTheWait`).
* A refused `put` purges the in-memory mailbox and not the table, so that the two can answer the
  acknowledgement of an expired delivery differently (`MailboxAcks.AcksDifferExactly`).
* The relay declares the length of an envelope's JSON with spaces (`services/relay/relay/main.py`,
  lines 366-383). The table counts what is declared and the in-memory store the compact length, so
  their byte statistics differ and the table can refuse first
  (`MailboxEquivalence.DeclaredSizesAnswerAlike`, `MailboxEquivalence.RefusalsAgreeExactly`,
  `MailboxSizes.CompactIsExact`).
* The in-memory mailbox checks the declared size and counts the compact length: its capacity limits
  hold if and only if no declared size is below the compact length (`MailboxLimits.HonestyIsExact`).
* A replayed envelope is caught only if ids are remembered for twice the timestamp window and the
  time between the two clock readings (`Replay.ExactlyOnceIsExact`); the shipped constants leave
  3000 seconds for the latter.
* With a round limit of 0 the drivers leave a session open (`CostSplitProperties.NeverLeftOpen`,
  `MeetingSchedule.ShortLimits`).

## Model

Unless it says otherwise, a row holds for all inputs of the member it names.

| member | source | states |
|---|---|---|
| RemoteCostSplit.DistributedRefinesLocal | services/local-core/enishi_core/services/remote_negotiation.py:1007-1096 | For every valid deal in whole cents (or settled in round 1), every schedule of guards that is steady at the start, every round limit from 1 to MAX_COUNTER_ROUNDS and any sufficient number of deliveries: two nodes over a loss-free Relay hold the same counters and the same ending as the local loop, on both sides, if and only if the initiator has delegated cost splits at the start; only the reason of a no-zone escalation may differ |
| AsyncCostSplit.AsyncFollowsLocal | services/local-core/enishi_core/services/remote_negotiation.py:934-1117 | For the same deals and in every run over a Relay that loses, duplicates and reorders, with errors that roll a message back or leave it unanswered, and as long as no owner decides: each log is a prefix of what the local run amounts to, a session ends only as that run ends, and an owner is asked only if, and what, that run asks |
| AsyncCostSplit.EveryRunFollows | services/local-core/enishi_core/services/remote_negotiation.py:1024-1096 | The invariant behind it, for both nodes and the Relay |
| RemoteCostSplit.NothingWithoutStart | services/local-core/enishi_core/services/remote_negotiation.py:291-298 | Without the delegation no session exists on either node, whatever the local loop does |
| RemoteCostSplitLimits.UndelegatedStartDiffers | services/local-core/enishi_core/services/remote_negotiation.py:291-298 | An ask of nothing by an initiator whose owner has switched cost splits off: agreed locally in round 1, no remote session |
| RemoteCostSplitLimits.OpeningIsExact | services/local-core/enishi_core/domains/cost_split.py:175-321 | For every deal that opens with a given ask, to agree in both forms amounts to being delegated at the start, if and only if that ask is in whole cents or rounds to nothing |
| RemoteCostSplitLimits.RoundedDownDisagrees | services/local-core/enishi_core/services/remote_negotiation.py:566-584 | For every ask that is rounded down there is a delegated deal on which the local loop agrees at the rounded ask and the initiator's node waits for its owner for good |
| RemoteCostSplitLimits.RoundedUpDisagrees | services/local-core/enishi_core/services/remote_negotiation.py:566-584 | For every ask that is rounded up there is a delegated deal on which the initiator's node has agreed for good and the local loop does not agree |
| RemoteCostSplitLimits.LimitIsExact | services/local-core/enishi_core/services/remote_negotiation.py:1073-1096 | The round limits for which, on every deal in whole cents, to agree in both forms amounts to being delegated at the start are exactly those not above MAX_COUNTER_ROUNDS |
| RemoteCostSplitLimits.LongLimitDisagrees | services/local-core/enishi_core/services/remote_negotiation.py:1087-1096 | Above that limit there is a deal whose responder has failed with an ERROR of the round limit, and which the local loop does not reject |
| RemoteCostSplit.ReplyIsMove | services/local-core/enishi_core/domains/cost_split.py:175-321 | The reply computed from the node's own log is the move of the local loop in that round, guards and round limit included |
| RemoteCostSplit.DeliveriesFollowPlay | services/local-core/enishi_core/domains/cost_split.py:638-732 | From any round on, the remaining deliveries reproduce the rest of the local run |
| CostSplitProperties.BargainingCorridor | services/local-core/enishi_core/domains/cost_split.py:633-732 | In every run and for every round limit, responder counters rise from its opening and stay at or below U, initiator counters fall from the ask and stay at or above L, and the two never cross, in spite of rounding to cents |
| CostSplitProperties.MoveInReached | services/local-core/enishi_core/domains/cost_split_strategy.py:61-146 | In a history the driver reaches, what each party can do: which amounts it accepts, where its counters lie, which reasons it escalates or rejects with and in which rounds |
| CostSplitProperties.AutomaticAgreementInZone | services/local-core/enishi_core/domains/cost_split.py:684-702 | An agreement without a human lies in [L, U] and does not exceed the ask, for all ratios and round limits |
| CostSplitProperties.NoAgreementWithoutZone | services/local-core/enishi_core/domains/cost_split.py:606-628 | With L > U no automatic agreement is reached, even if the shortcut is deleted |
| CostSplitProperties.ShapeOfEveryRun | services/local-core/enishi_core/domains/cost_split.py:598-736 | In every run, shortcut included, rejections and acceptances by the responder happen only in round 1, every later agreement is the initiator's in an even round, and who asks is who moves |
| CostSplitProperties.ResponderKeepsCountering | services/local-core/enishi_core/domains/cost_split_strategy.py:61-89 | Once round 1 has countered, every later price action of the responder is a counter |
| CostSplitProperties.NeverLeftOpen | services/local-core/enishi_core/domains/cost_split.py:638-736 | The driver leaves a session open exactly when it is given no round to play and neither guard nor shortcut ends it before |
| CostSplitProperties.ShortcutPreservesMeaning | services/local-core/enishi_core/domains/cost_split.py:606-628 | Deleting the zone-of-agreement shortcut changes no counter, decider, share or rejection code, only the reason of an escalation, which then is the shortcut's own |
| CostSplitProperties.FullConcessionSettlesAtAsk | services/local-core/enishi_core/domains/cost_split_strategy.py:71-89 | A responder that concedes everything settles at an ask between its opening and U by round 2 when no guard interferes |
| CostSplitProperties.CounterContracts | services/local-core/enishi_core/domains/cost_split_strategy.py:71-127 | Each counter that the floor does not hold up leaves at most the unconceded fraction of the gap and half a cent |
| CostSplitProperties.GeometricConvergence | services/local-core/enishi_core/domains/cost_split_strategy.py:71-127 | After the k counters of any run in which the initiator's floor holds up none of them, the gap is at most q^k of the first gap plus 0.5 / (1 - q), where q is the larger unconceded fraction |
| CostSplitStrategy.ConcedeStaysBetween | services/local-core/enishi_core/domains/cost_split_strategy.py:88-88 | A concession lies between the own offer and the standing one, from either side |
| CostSplitStrategy.InitiatorCounterInCorridor | services/local-core/enishi_core/domains/cost_split_strategy.py:92-127 | The initiator's counter stays strictly above the standing offer, at or above its floor and never rises; otherwise it accepts or escalates, with the exact conditions |
| CostSplitStrategy.ResponderCounterInCorridor | services/local-core/enishi_core/domains/cost_split_strategy.py:61-89 | A later responder counter lies between its own last offer and the standing one |
| CostSplitDecisions.ResponderDecides | services/local-core/enishi_core/domains/cost_split_strategy.py:61-89 | With U and the opening as the nearest cents to the reservation ratio, and to the lesser of the preferred and the reservation ratio, of the total: the responder accepts exactly what does not exceed its position, escalates or rejects exactly what exceeds U, by max_negotiable_amount and the high-value rule, and counters everything else with the nearest cent to its conceded fraction of the gap |
| CostSplitDecisions.InitiatorDecides | services/local-core/enishi_core/domains/cost_split_strategy.py:92-127 | With L as the lesser of the ask and the nearest cent to the rest of the total: the initiator accepts exactly what reaches its position or its next candidate, asks its owner exactly when it stands at L and what stands is below, and counters otherwise with the nearest cent to its conceded fraction of the gap, but not below L |
| CostSplitDecisions.OpensWith | services/local-core/enishi_core/domains/cost_split.py:598-628 | What a negotiation without guards comes to at once, in terms of these amounts: the shortcut and its codes, acceptance of an ask up to the opening, a first counter between opening and ask, rejection |
| CostSplitDecisions.LastRoundAsks | services/local-core/enishi_core/domains/cost_split.py:677-683 | Who would counter in the last round asks its owner about what stands, with the reason of the round limit |
| Money.RoundIsNearest | services/local-core/enishi_core/domains/cost_split_strategy.py:88-88 | The contract of rounding determines it: anything within half a cent is the rounded amount |
| Money.RoundBetween | services/local-core/enishi_core/domains/cost_split_strategy.py:88-88 | Rounding never crosses a cent |
| CostSplitDriver.RunCostSplit | services/local-core/enishi_core/domains/cost_split.py:595-736 | The loop over a session leaves exactly the messages, status, approval or agreement of the functional run, for every limit |
| CostSplitDriver.Alternate | services/local-core/enishi_core/domains/cost_split.py:630-732 | The alternating-offers loop keeps the history, the own last offers and the turn of the functional run in step |
| CostSplitDriver.Conclude | services/local-core/enishi_core/domains/cost_split.py:684-714 | An accepting, escalating or rejecting action closes the session with the ending it stands for |
| FormsSayTheSame.SplitEndsWith | services/local-core/enishi_core/domains/cost_split.py:684-714 | For the same run the local driver and both nodes close with the same kind of message, from the same party, with the same share or code |
| FormsSayTheSame.SplitCountersAgree | services/local-core/enishi_core/domains/cost_split.py:716-732 | Their counters agree one by one in sender, amount and order |
| FormsSayTheSame.SplitOpensWith | services/local-core/enishi_core/services/remote_negotiation.py:345-377 | Both begin with the REQUEST of the initiator; a node adds the unrounded ask as its PROPOSE |
| FormsSayTheSame.SplitAsks | services/local-core/enishi_core/services/remote_negotiation.py:587-640 | An escalation is a message with the reason in the local form, and a stored question with the same reason and share in the remote one |
| FormsSayTheSame.MeetingEndsWith | services/local-core/enishi_core/domains/meeting_schedule.py:483-550 | Both forms of a meeting close alike: ACCEPT with the slot, or ERROR with NO_AVAILABLE_SLOT |
| FormsSayTheSame.MeetingOffersAgree | services/local-core/enishi_core/domains/meeting_schedule.py:452-461 | Their offers agree one by one in number, kind, sender and slots |
| LocalSession.Approval.ExpireIfNeeded | services/local-core/enishi_core/services/approvals.py:52-84 | Exactly a pending approval at or past its deadline expires |
| LocalSession.Approval.Resolve | services/local-core/enishi_core/services/approvals.py:110-156 | An approval leaves pending at most once; the refusal code tells expired from resolved |
| LocalSession.Session.AppendMessage | services/local-core/enishi_core/domains/common.py:218-245 | Messages are numbered without gaps |
| LocalSession.Session.CreateAgreement | services/local-core/enishi_core/domains/common.py:123-153 | A session has at most one agreement, the first |
| LocalSession.Session.CreateNegotiationApproval | services/local-core/enishi_core/domains/common.py:156-215 | An escalation waits for a fresh pending approval that names the decider |
| LocalSession.Session.OnApprovalResolved | services/local-core/enishi_core/services/negotiation.py:170-247 | Only the approval the session waits for has an effect, once: ACCEPT and agreement, or REJECT with the code of its fate |
| LocalSession.Session.LookAt | services/local-core/enishi_core/services/approvals.py:52-97 | Looking at an expired approval fails the session that waits for it, with a REJECT of the decider that says so, and touches no other |
| LocalSession.Session.ResolveApproval | services/local-core/enishi_core/services/approvals.py:110-156 | Approving or rejecting in time takes effect exactly once: the decider's ACCEPT of the payload, or REJECT as rejected, and as expired when it comes too late; a repeated attempt is refused |
| SessionLife.TryToResolve | services/local-core/enishi_core/services/negotiation.py:170-247 | Any attempts to approve, reject or look at the approval add at most one message; status, agreements and numbering follow the one outcome |
| SessionLife.FirstEffectDecides | services/local-core/enishi_core/services/approvals.py:52-156 | The first attempt that has an effect decides the outcome, whatever comes after it |
| SessionLife.LifeOfCostSplit | services/local-core/enishi_core/domains/cost_split.py:446-736 | Through a whole run and its approval, messages are 1..n, the session is AGREED exactly with its one agreement and WAITING_APPROVAL exactly with a pending approval, which takes effect at most once |
| SessionLife.LifeOfMeeting | services/local-core/enishi_core/domains/meeting_schedule.py:367-568 | The same for a meeting |
| RemoteBounds.BoundedAgainstAnyPeer | services/local-core/enishi_core/services/protocol_state.py:36-75 | Whatever envelopes arrive and whatever the owner decides, a session logs at most MAX_COUNTER_ROUNDS + 1 COUNTERs and MAX_COUNTER_ROUNDS + 4 messages, numbered 1..last_sequence |
| RemoteBounds.BoundsAreTight | services/local-core/enishi_core/services/remote_negotiation.py:795-824 | Both bounds are reached against some peer, by a human-approved COUNTER that this peer then accepts |
| ExtraCounter.OverLimitExactly | services/local-core/enishi_core/services/remote_negotiation.py:795-824 | A session gets past MAX_COUNTER_ROUNDS exactly when its owner approves a COUNTER while it waits with that many: another candidate than the selected one, or all of them when none is selected |
| ExtraCounter.SplitsStayWithin | services/local-core/enishi_core/domains/cost_split.py:369-421 | No session about a split ever does, whatever peer and owner do |
| ExtraCounter.HonestRunsAreShort | services/local-core/enishi_core/services/protocol_state.py:36-75 | Between honest nodes no log ever holds more than MAX_COUNTER_ROUNDS + 3 messages |
| ExtraCounter.ExtraCounterRefused | services/local-core/enishi_core/services/protocol_state.py:64-75 | Between honest nodes the COUNTER past the limit is refused with TooManyCounters; both sessions are open |
| ExtraCounter.StrandedForGood | services/local-core/enishi_core/services/remote_negotiation.py:795-824 | From then on nothing that the Relay, the domains or the owners do changes either session: both stay open for good |
| StrandedMeeting.ApprovalsStrand | services/local-core/enishi_core/services/remote_negotiation.py:795-824 | It is reached: in every meeting whose two sides find no common slot and have standing reasons to ask, four deliveries, each followed by an approval |
| StrandedMeeting.StubbornOwnersAreAsked | services/local-core/enishi_core/domains/meeting_schedule.py:651-707 | There are such meetings |
| RemoteBounds.EffectGrowsLog | services/local-core/enishi_core/services/remote_negotiation.py:934-1117 | Every step with an effect adds to the log: a termination measure across receiving, answering and deciding |
| RemoteBounds.FewEventsHaveEffect | services/local-core/enishi_core/services/remote_negotiation.py:934-1117 | However long a run is, at most MAX_COUNTER_ROUNDS + 4 of its events change anything |
| RemoteBounds.TerminalIsAbsorbing | services/local-core/enishi_core/services/protocol_state.py:46-52 | A session that has ended stays as it is |
| Admission.AdmittedExactly | services/local-core/enishi_core/services/protocol_state.py:36-75 | In every session that can arise: which message is admitted, by its number, its kind and the number of messages so far |
| Admission.RefusedFor | services/local-core/enishi_core/services/protocol_state.py:36-75 | And with which refusal one is turned away, the checks being made in order |
| Admission.BegunExactly | services/local-core/enishi_core/services/remote_negotiation.py:953-1000 | A session begins with a REQUEST numbered 1 of an initiator, and with nothing else |
| Admission.HeardExactly | services/local-core/enishi_core/services/remote_negotiation.py:1002-1117 | When an incoming message has any effect at all |
| OwnerDecisions.OwnerDeclines | services/local-core/enishi_core/domains/meeting_schedule.py:254-275 | A rejection and an expiry are told apart on the wire: HUMAN_REJECTED and APPROVAL_EXPIRED |
| OwnerDecisions.OwnerAcceptsShare | services/local-core/enishi_core/domains/cost_split.py:369-421 | An approved split sends ACCEPT with the proposed share or the one that replaces it, and refuses a selection that is no share |
| OwnerDecisions.OwnerAnswersSlots | services/local-core/enishi_core/domains/meeting_schedule.py:254-296 | An approved meeting sends ACCEPT with the selected slot, COUNTER with exactly the slot that its owner has picked from the list instead, or COUNTER with the first five when none is selected; a slot that is not listed is refused |
| OwnerDecisions.PickedSlotPrevails | services/local-core/enishi_core/domains/meeting_schedule.py:277-296 | If the peer's next answer to that COUNTER is an agreement, it is on the same instants as the picked slot |
| OwnerDecisions.AgreementCarriesRequest | services/local-core/enishi_core/domains/cost_split.py:323-348 | Against any peer, an agreement about a split carries the REQUEST's title, total, deadline and currency, yen only where none is named, and the share of the ACCEPT; one about a meeting the slot of the ACCEPT |
| OwnerDecisions.QuestionCarriesRequest | services/local-core/enishi_core/domains/cost_split.py:350-367 | So does what an owner is asked about a split |
| RemoteBounds.OutlivedExactly | services/local-core/enishi_core/services/remote_negotiation.py:1109-1114 | A question to the owner is left over in an ended session exactly when the peer sends its next message, a REJECT or ERROR, during the wait; the question stays as it was |
| RemoteBounds.QuestionMayOutlive | services/local-core/enishi_core/services/remote_negotiation.py:1109-1114 | For every request and reason there is a run of a session about that request which leaves such a question, with that reason, behind |
| TwoNodes.QuestionsEndWithTheWait | services/local-core/enishi_core/services/remote_negotiation.py:1109-1117 | Between honest nodes it never happens: in every run, on both sides, a question exists only while the session waits for it |
| RemoteBounds.RunKeepsInv | services/local-core/enishi_core/services/remote_negotiation.py:934-1117 | The session invariant holds in every run: order of kinds, counters against length, status against last message, question against status, agreement exactly when AGREED and equal to the one its messages name |
| TwoNodes.LogAgreement | services/local-core/enishi_core/services/remote_negotiation.py:643-669 | For two honest nodes over a Relay that loses, duplicates, reorders and resends, one log is always a prefix of the other and each carries 1..last_sequence |
| TwoNodes.NoSplitDecision | services/local-core/enishi_core/services/remote_negotiation.py:815-827 | The nodes never end one AGREED and one FAILED, and two agreements are equal, human overrides included, although each node builds its own: from its position, from the stored proposal, or from the terms it hears and the REQUEST |
| SplitTerms.AgreedShareStood | services/local-core/enishi_core/domains/cost_split.py:175-421 | In every run of honest nodes, over any Relay and with any profiles, rules and decisions: an agreed share is the offer before its acceptance, in whole cents, unless the accepting side's owner has overridden it |
| SplitTerms.OverrideBinds | services/local-core/enishi_core/domains/cost_split.py:388-421 | Whatever share an owner who is asked in round 1 puts in its place, the next delivery makes it the agreement of both nodes; the peer's reservation is not asked |
| MeetingTerms.AgreedSlotFits | services/local-core/enishi_core/domains/meeting_schedule.py:179-296 | In every run of honest nodes, over any Relay and with any rules and decisions, overrides included: an agreed slot is free in both calendars that the nodes look at, and inside the requested window on both clocks |
| RemoteNegotiation.PathsAgree | services/local-core/enishi_core/domains/cost_split.py:194-421 | The three ways of building the agreed payload give the same one on the same terms |
| TwoNodes.AtMostOneInFlight | services/local-core/enishi_core/services/protocol_state.py:58-63 | Once the opening has been heard, the logs differ by at most one message |
| TwoNodes.EveryRunKeepsInv | services/local-core/enishi_core/services/remote_negotiation.py:934-1117 | The invariant of the pair of nodes and the Relay, in every run |
| RemoteNode.RemoteSession.Initiate | services/local-core/enishi_core/services/remote_negotiation.py:255-390 | Starting logs and queues REQUEST and PROPOSE, in this order |
| RemoteNode.RemoteSession.HandleEnvelope | services/local-core/enishi_core/services/remote_negotiation.py:934-1117 | The step on the session row is the functional step, refusals included, and every own message is queued exactly once in the order of the log |
| RemoteNode.RemoteSession.Answer | services/local-core/enishi_core/services/remote_negotiation.py:1040-1096 | The four outcomes of a decision, with the fallback ERROR at the round limit, update the row and the outbox as the functional reaction does |
| RemoteNode.RemoteSession.ResolveApproval | services/local-core/enishi_core/services/remote_negotiation.py:672-836 | A decision is taken at most once, is refused outside the wait or with a foreign selection, and sends its one message through the outbox |
| RemoteNode.RemoteSession.FlushOutbox | services/local-core/enishi_core/services/remote_negotiation.py:643-669 | The loop over the outbox sends in order, stops at the first failure and changes nothing but sent flags and attempts |
| RemoteNode.FlushKeepsOrder | services/local-core/enishi_core/services/remote_negotiation.py:643-669 | Flushing resends nothing, changes no envelope, takes nothing back, and lets no message overtake an earlier one |
| RemoteNode.FlushExactly | services/local-core/enishi_core/services/remote_negotiation.py:643-669 | Item by item: as many pending items are sent as the Relay takes, one more is tried, and no other changes |
| LossFreeRelay.UnderwayIsDelivered | services/local-core/enishi_core/services/remote_negotiation.py:1120-1245 | A message that its receiver admits reaches the receiver's log by the next delivery, and leaves the sender alone |
| Replay.ReplayGuard.CheckAndRecord | services/local-core/enishi_core/security/replay.py:17-42 | An id is refused exactly while its entry lives; the new table is the purged one with the new entry |
| Replay.ExactlyOnceIsExact | services/local-core/enishi_core/security/envelope.py:285-293 | No run handles an envelope twice if and only if entries live at least twice the timestamp window plus the time between the two clock readings, with purges and rolled-back handlers |
| Replay.ShippedConstantsMeanOnce | services/local-core/enishi_core/security/replay.py:17-42 | With 3600 against 300 seconds that time may be as long as 3000 seconds |
| Replay.EntryStays | services/local-core/enishi_core/security/replay.py:22-42 | The entry of a handled envelope survives everything that arrives before its time has come |
| Replay.HandledExactly | services/local-core/enishi_core/security/replay.py:22-42 | An envelope is handled exactly when it comes in its window, its handler succeeds, and everything that was remembered of its id has been forgotten; what was rolled back is not remembered |
| Replay.RedeliveredIsHandled | services/local-core/enishi_core/services/remote_negotiation.py:1205-1230 | After attempts that were all rolled back a redelivered envelope is handled |
| Replay.ShippedHandling | services/local-core/enishi_core/security/replay.py:17-42 | The same with 300 and 3600 seconds |
| MailboxBackends.MailboxStore.Purge | services/relay/relay/store.py:99-108 | The in-place purge drops exactly the expired messages and the counters older than the previous minute |
| MailboxBackends.MailboxStore.Put | services/relay/relay/store.py:120-149 | The in-memory put, as a step of the state machine: purge first, then the three capacity checks in order |
| MailboxBackends.MailboxStore.PendingStats | services/relay/relay/store.py:184-195 | The loop over the boxes counts all pending messages and their compact bytes |
| MailboxBackends.SqliteMailboxStore.Put | services/relay/relay/store.py:286-317 | The table's put: a refusal rolls the purge back |
| MailboxWalks.FetchServesPages | services/relay/relay/store.py:319-360 | In any run of either backend with fresh ids, for any declared sizes and any clock, a fetch returns the first messages pending behind its cursor, in order, and names its last key exactly when others follow |
| MailboxWalks.FetchServesOldestFirst | services/relay/relay/store.py:151-360 | In terms of storage time and id: the oldest first, all behind the cursor, everything else that is pending behind it lies further on and the page is then full; pending is what is held and younger than the time to live |
| MailboxEquivalence.BackendsAnswerAlike | services/relay/relay/store.py:199-384 | After any run with a monotone clock, the same delivery ids and sizes equal to the compact length, the next operation gets the same answer from both backends, unless it acknowledges an expired delivery |
| MailboxEquivalence.StepAlike | services/relay/relay/store.py:86-384 | One operation, whatever sizes are declared, keeps the backends alike as long as they give a put the same verdict: same live messages in the same order, same counters from the current minute on, and same answers but for byte counts |
| MailboxEquivalence.DeclaredSizesAnswerAlike | services/relay/relay/main.py:366-383 | For any declared sizes, and as long as every put has met the same verdict in both backends: pages, rate answers, counts and acknowledgements of live deliveries agree. With sizes not below the compact length, such as the relay passes, what the table accepts the in-memory store accepts too, and its byte count is at most the table's, equal exactly when every pending row is stored with its compact length |
| MailboxEquivalence.AcceptedAlike | services/relay/relay/store.py:286-317 | With such sizes the verdicts are the same as long as the table accepts every put |
| MailboxEquivalence.RefusalsAgreeExactly | services/relay/relay/store.py:128-149 | Under these sizes, and after the same verdicts, the verdicts on the next put agree exactly when no byte limit lies between what the two backends count |
| MailboxSizes.CompactIsExact | services/relay/relay/store.py:120-195 | A policy of declaring sizes makes the backends answer alike in all runs (stale acknowledgements apart) if and only if it declares the compact length of every envelope |
| MailboxSizes.SpacedSizesRefuse | services/relay/relay/main.py:366-383 | For every envelope declared with a spaced length two messages and a suitable limit suffice for the table to refuse what the in-memory store accepts |
| MailboxEquivalence.StaleAckMayDiffer | services/relay/relay/store.py:173-179 | The exception is real: after a refused put the in-memory store has forgotten what the table still acknowledges |
| MailboxAcks.AckExactly | services/relay/relay/store.py:173-179 | In either backend, for any sizes and clock, a message that was taken and not acknowledged is found exactly until the first lasting purge at or after its expiry |
| MailboxAcks.AcksDifferExactly | services/relay/relay/store.py:286-368 | The two backends answer an acknowledgement differently exactly when the in-memory store has purged since the message expired and the table has not; then it is the table that finds it |
| MailboxAcks.LastPurgeDecides | services/relay/relay/store.py:99-108 | Under a monotone clock that comes down to the last lasting purge of each backend |
| MailboxAcks.AcknowledgedIsGone | services/relay/relay/store.py:173-368 | In any run of either backend with fresh ids, a message that was put and acknowledged is on no later page, and no later acknowledgement finds it |
| MailboxWalks.RunServesPendingOnce | services/relay/relay/store.py:151-360 | In any run of either backend with fresh ids, whatever sizes and clocks, a reader who follows next_cursor to the end gets each message that stays pending on exactly one page, with puts, acks and expiries in between |
| MailboxWalks.RunWalkTerminates | services/relay/relay/store.py:151-360 | In either backend and with a monotone clock, without new messages for the receiver a walk has at most one page more than messages pending at its start |
| MailboxWalks.IdsStayDistinct | services/relay/relay/store.py:120-368 | In every run of either backend with fresh ids no receiver has two messages with one delivery id, and every id was given out by a put |
| MailboxPage.NextPageIsPage | services/relay/relay/store.py:151-171 | The page served is, in order, the first messages the cursor lets through; it names its last key exactly when others follow, all of them beyond that key |
| MailboxPages.WalkIncreases | services/relay/relay/store.py:151-171 | Every key (stored_at, delivery_id) on a later page of a walk lies beyond every key on an earlier one, whatever happens in between |
| MailboxLimits.CapacityRespected | services/relay/relay/store.py:120-149 | In every reachable state each receiver's count and bytes and the total respect their limits: the table without condition, the in-memory store when sizes are not understated |
| MailboxLimits.HonestyIsExact | services/relay/relay/store.py:120-149 | A policy of declaring sizes keeps the in-memory store within its limits in all runs, for all limits, if and only if it never declares less than the compact length |
| MailboxLimits.UnderstatedSizeOverflows | services/relay/relay/store.py:120-149 | For every envelope and every size below its length there are limits that a single put exceeds |
| MailboxLimits.RateRespected | services/relay/relay/store.py:110-118 | With a monotone clock no sender is allowed more than the limit in a minute bucket, nor more than twice the limit in any window of 60 seconds, in either backend |
| MailboxLimits.AllowedExactly | services/relay/relay/store.py:110-118 | With a monotone clock, and in either backend, a send is allowed exactly when fewer than ratePerMinute sends of its sender have been allowed since the last full minute of the clock, 60 k seconds |
| MailboxLimits.CountersKept | services/relay/relay/store.py:99-108 | A purge keeps the counters of this minute and of the one before |
| MailboxVerdicts.MemoryVerdict | services/relay/relay/store.py:120-149 | Which of the three limits a refused put names, in the in-memory store, and what every box holds afterwards |
| MailboxVerdicts.TableVerdict | services/relay/relay/store.py:286-317 | The same for the table, whose rows a refusal leaves as they were |
| Scheduling.CandidateSlots | services/local-core/enishi_core/services/scheduling.py:47-80 | The capped nested loops end and return the first 20 slots of the plain enumeration, for every range list, duration and busy list |
| Scheduling.EnumerationIsExact | services/local-core/enishi_core/services/scheduling.py:60-80 | The enumeration holds a slot exactly when it is the k-th half-hour step of a range on a date, ends inside the range and overlaps nothing busy |
| Scheduling.EarliestFirst | services/local-core/enishi_core/services/scheduling.py:60-80 | With ranges in the order of the day the candidates increase strictly, and any free slot left out starts after all 20 |
| Scheduling.IntersectIsExact | services/local-core/enishi_core/services/scheduling.py:83-109 | Common slots are those of the first list that the second has at the same instants; the first is the first such |
| Scheduling.MeetIsSymmetric | services/local-core/enishi_core/services/scheduling.py:97-109 | Having a slot in common does not depend on which list is asked |
| Scheduling.CollectBusy | services/local-core/enishi_core/services/scheduling.py:124-141 | The collecting loops return the busy intervals of the schedule memories, in order |
| Scheduling.BusyIsExact | services/local-core/enishi_core/services/scheduling.py:124-141 | An interval is busy exactly when a schedule memory has an entry for it, its times read with its own offset, or with the owner's when it has none |
| CalendarClock.FreeOnClock | services/local-core/enishi_core/services/scheduling.py:35-80 | A time of the owner's day is free exactly when no schedule entry, read on the owner's clock, has a minute in common with it |
| CalendarClock.LocalEntryBlocks | services/local-core/enishi_core/services/scheduling.py:124-141 | An entry without an offset blocks exactly the times that meet it on the owner's own clock |
| CalendarClock.OfferedOnClock | services/local-core/enishi_core/services/scheduling.py:47-80 | The slots found are exactly the half-hour steps of the requested ranges, on the requested dates, by the owner's clock, that end inside the range and are free |
| CalendarClock.FirstOfThem | services/local-core/enishi_core/services/scheduling.py:47-80 | The candidates are the first 20 of them, the offer the first five |
| MeetingSchedule.RunNegotiation | services/local-core/enishi_core/domains/meeting_schedule.py:367-553 | The driver leaves exactly the messages, status, approval or agreement of the functional run |
| MeetingSchedule.MeetingOutcome | services/local-core/enishi_core/domains/meeting_schedule.py:463-550 | For every round limit from 2 on the run fails with NO_AVAILABLE_SLOT if and only if neither side's first five candidates meet the other's list; otherwise it settles or asks an owner in round 1, or failing that in round 2 |
| MeetingSchedule.ShortLimits | services/local-core/enishi_core/domains/meeting_schedule.py:463-550 | The limits 0 and 1: who looks, and that only 0 leaves the session open |
| MeetingSchedule.SelectedSlotFits | services/local-core/enishi_core/domains/meeting_schedule.py:479-534 | Every slot agreed on or put before an owner is free on both calendars and inside the requested window on both clocks, and the decider's rules give exactly that ending |
| MeetingSchedule.EarliestIsSelected | services/local-core/enishi_core/domains/meeting_schedule.py:479-481 | With ranges in order no earlier slot was on the decider's list and on offer |
| MeetingSchedule.NothingMissedInShortLists | services/local-core/enishi_core/domains/meeting_schedule.py:463-550 | When one side has at most five candidates the run fails exactly when the lists have nothing in common |
| MeetingScheduleLimits.CommonSlotMissed | services/local-core/enishi_core/domains/meeting_schedule.py:463-550 | With longer lists a common slot can be missed, for every round limit from 2 on |
| MeetingSchedule.AcceptedExactly | services/local-core/enishi_core/domains/meeting_schedule.py:623-731 | A slot is accepted without asking exactly when delegation, confidence, policy and relationship allow it, and it starts, on some day of the owner's clock, in a preferred range when there is one and in no avoided range |
| CalendarClock.JudgedOnClock | services/local-core/enishi_core/domains/meeting_schedule.py:600-731 | The verdict on a slot at a given time of the owner's day, for every time: acceptance, or the first of the reasons in their order |
| CalendarClock.JudgedWithoutSlot | services/local-core/enishi_core/domains/meeting_schedule.py:623-731 | The verdict when there is no slot |
| Disclosure.PolicyIsExact | services/local-core/enishi_core/services/peers.py:215-234 | For either side: every slot agreed on in every run of every valid meeting, over any Relay and with any rules, decisions and peer calendars, is free in the owner's full calendar if and only if no slot that a request can ask for is free by the disclosed memories and busy by the hidden ones |
| Disclosure.HiddenSlotIsBooked | services/local-core/enishi_core/services/peers.py:215-234 | Every slot that a policy hides beyond what it discloses gets booked in some meeting, on both nodes |
| Disclosure.FormsAgreeUnderPolicies | services/local-core/enishi_core/domains/meeting_schedule.py:139-229 | Under policies that hide nothing that counts, the two forms of a valid meeting end alike if and only if the initiator has delegated meetings, both share their schedules, and whoever finds no common slot has no standing reason to ask its owner |
| Disclosure.FormsNeedPolicy | services/local-core/enishi_core/domains/meeting_schedule.py:139-229 | A policy makes that so for all valid meetings with peers that hide nothing if and only if it hides nothing that counts itself |
| Disclosure.MinutesDecide | services/local-core/enishi_core/services/scheduling.py:35-45 | When no busy entry is empty that can be checked minute by minute |
| RemoteMeeting.FormsAgreeExactly | services/local-core/enishi_core/domains/meeting_schedule.py:139-229 | For all meetings and policies: the two forms end alike exactly when the condition holds on what is disclosed and the local driver ends alike on what is disclosed and on everything |
| RemoteMeeting.FormsAgreeWhenDisclosed | services/local-core/enishi_core/services/remote_negotiation.py:291-298 | When everything is disclosed, that comes down to: the initiator has delegated meetings, both share their schedules, and whoever finds no common slot has no standing reason to ask its owner |
| RemoteMeeting.ExchangeEnds | services/local-core/enishi_core/services/remote_negotiation.py:255-391 | When the condition holds on what is disclosed, both nodes end as the local driver on it; when it does not, in no ending of any run of any meeting |
| RemoteMeetingLimits.UndelegatedStartDiffers | services/local-core/enishi_core/services/remote_negotiation.py:291-298 | An initiator who has not delegated meetings: settled locally in round 1, no remote session |
| RemoteMeetingLimits.BusySlotAgreed | services/local-core/enishi_core/services/peers.py:215-234 | Under policies that disclose no memory type two nodes agree on a slot at which both owners are busy, where the local driver finds none |
| RemoteMeetingLimits.LimitIsExact | services/local-core/enishi_core/domains/meeting_schedule.py:463-550 | The local round limits for which the forms agree wherever the condition holds are exactly MAX_COUNTER_ROUNDS |
| AsyncMeeting.AsyncFollowsLocal | services/local-core/enishi_core/services/remote_negotiation.py:934-1117 | In every run over a Relay that loses, duplicates and reorders, with errors that roll a message back or leave it unanswered, and as long as no owner decides: each log is a prefix of what the local run on the nodes' calendars amounts to, a session ends only as that run ends, and an owner is asked only what that run asks, or about nothing |
| AsyncMeeting.EveryRunFollows | services/local-core/enishi_core/services/remote_negotiation.py:1024-1096 | The invariant behind it, for both nodes and the Relay |
| RemoteMeeting.UnreservedExactly | services/local-core/enishi_core/domains/meeting_schedule.py:651-707 | Such a standing reason is exactly missing delegation, low confidence, a reserved policy or peer, or any preferred range that counts |
| RemoteMeeting.DeliveriesFollowRounds | services/local-core/enishi_core/services/remote_negotiation.py:1007-1096 | From any round on, the remaining deliveries reproduce the local run when no owner is asked about nothing, and otherwise leave an owner asked about nothing |

## Left out

- TwoNodes.NoSplitDecision: speaks of safety only. Delivery is not live: an envelope that arrives out of order or is refused is acknowledged and dropped, and nothing sends it again.
- RemoteBounds.RunKeepsInv: covers sessions of the current protocol version. Legacy `aun/0.1` envelopes, separate node identities and changes of clone or trust during a session are not modelled.
- RemoteNode.RemoteSession.FlushOutbox: flushes the items of one session; the order between sessions that share an outbox is not modelled.
- RemoteCostSplit.DistributedRefinesLocal: reads the guards of a round from one table on both sides, so it compares the forms under the same owners' rules; an owner who changes a rule between a local and a remote run is outside it.
- Disclosure.PolicyIsExact: takes a disclosure policy as the memories it lets through and whether it shares the schedule, fixed during a session; how a policy comes to that is not modelled.
- RemoteCostSplit.NothingWithoutStart: models the delegation gate of a start. That the peers trust each other, have the capability and accept the request's payload, and that both clones are active, is presupposed.
- AsyncCostSplit.AsyncFollowsLocal: holds until an owner decides; what holds after a decision are `TwoNodes.NoSplitDecision` and `SplitTerms.AgreedShareStood`.
- AsyncMeeting.AsyncFollowsLocal: likewise, with `TwoNodes.NoSplitDecision` and `MeetingTerms.AgreedSlotFits`.
- MeetingTerms.AgreedSlotFits: speaks of two honest nodes. A node does not compare the slot or share of an incoming ACCEPT with its own offer.
- MeetingSchedule.SelectedSlotFits: uses integer minutes and a fixed offset per side. Time zones with daylight saving time, and slots written without an offset, are not modelled (busy entries without an offset are).
- MailboxBackends.MailboxStore.Put: reads the clock once per operation and gets the delivery id as a number that orders as its text does; the encoding of cursors as text is not modelled.
- SessionLife.LifeOfMeeting: records the slot of an agreement and not the number of rounds, the topic or the duration stored beside it.
- Names, topics, titles, currencies and deadlines are values that can only be stored, sent and compared; an absent and an empty currency are one. An envelope in a mailbox is its content, unread, and the length of its compact JSON.
- Signatures, payload hashes, canonical JSON and schema checks: an envelope is an authentic record of sender, sequence, type, request and delta.
- HTTP, SQL engines, key storage and user interfaces; a commit is an atomic update, except for the policy read named above. A crash between resolving a local approval and reflecting it in the session is not modelled.
- Floating-point error: amounts and clock readings are exact. Shares sent by a peer may be any real number of cents in the protocol model; a meeting's or split's agreed payload holds whole cents.
- How confidence, delegation and relationship settings are computed or stored: for `cost.split` their result per round is an input, for meetings the owner's settings are.
- The deadline of a remote approval: resolving as expired is one of the possible decisions at any time, as the code allows.
- Metrics, audit log, disclosure filter, memory search and synchronisation, cloning, coding tasks and `task.request`: easier parts, or mostly input and output.
