# A model of the XRCE agent and its proofs

The agent bridges DDS-XRCE clients to DDS: an XRCE layer (`src/service`) speaks to clients over
streams of messages, a DDS layer (`dds-agent/src/impl_ndds`) holds sessions, attached resources
and reads. This project models what the two layers share and what spans them, and proves it for
all inputs, runs and interleavings. `dafny verify dfyconfig.toml` checks all of it.

## Modules

Sample loans. `SessionState` is the state of one client session seen by both layers, with each
operation as a function. `Loans` has the invariant that spans both layers, `Dismissal` the closed
form of the dismissal loop, `ClientSession` the same operations in place, with their loops. A
session's answers from clock and resource table are an oracle indexed by loan number; each loan is
given back at most once, so this leaves them free.

Workers. `Workers` interleaves resetter, timer, closer, cleaner, deleter, requester, sweeper and
the release of messages on one session. A step takes one worker from one point where the session
lock is released to the next. `WorkerFrames`, `WorkerSafety`, `WorkerRuns` and `WorkerTheorems`
build its invariant and what follows; `TimeoutRace` is a run in which draining before cancelling
is not enough, `TimerStrikes` says exactly when it is not; `SessionClosing` says who closes a
session, `SessionEnd` that all its loans are back by then. `ResetRuns` says what becomes of a
reset, `ResetReads` which reads it leaves, `ResetRaces` has a run in which it is given up and one in
which it is overtaken. `Sweep` is the sweep of completed reads by itself, `SweepRuns` the sweeper
among the other workers. `ReadSetUp` is what a READ comes to, `ReadMarks` when a read is complete,
`ReadEnds` who may end it before, `WorkerOutcomes` what the other workers come to.

Reading. `ReadLoop` is a read attempt on one reader, `SessionReads` ties it to the session,
`ReaderCache` lets any number of requests share a reader's cache, `ReadSeries` follows one
attachment over all its reads, `DeliveryControls` the control its READs are delivered under.

Resources. `NativeDomain` and `NativeDelete` are the mutually recursive deletion of a DDS entity
tree, `NativeRuns` and `NativeRetry` runs of such deletions. `ResourceDb` has the attachments and
their counts, `AttachIds` their ids, `ResourceSweeps` the clean-up and the automatic attachment,
`ResourceTable` the same operations in place. `ResourceWorld` takes entities, records and
attachments together, `FailedDeletions` has two runs of it.
`EntityName` has the references joined with "::".

Around them. `Locks` is the lock order, `Requests` the ownership of request buffers, `Mappings`
the table of client locators.

## What does not hold as intended

- A session that times out while a DELETE of its client awaits a read's cancellation keeps its
  other samples: the timer finds the client disposed of and dismisses nothing, and the cleaner is
  refused "cannot cancel read with cached samples" (`TimeoutRace.TimeoutDuringDelete`; exactly when,
  `TimerStrikes.TimerHoldsExactly`).
- A session stays resetting for good when a reset finds a read of it in the hands of another
  worker, such as a READ that is just replacing it: the resetter gives up with the flag set, and from
  then on no data, message, reset or timer reaches the session (`ResetRaces.ResetDuringRead`; exactly
  when, `ResetRuns.ResettingExactly`; for good, `ResetRuns.HeldForGood`).
- A reset that gets through may leave a read behind, set up by a READ that was under way when it
  began (`ResetRaces.ResetOvertaken`). Only such a READ can do that (`ResetReads.ResetClears`).
- A READ without a delivery control is delivered under the one its reader was last given: with the
  bounds and the pace of an earlier READ (`DeliveryControls.AsAskedExactly`).
- A READ on a stream other than its reader's is refused while samples are out on the other one
  (`WorkerTheorems.ReadRefusedExactly`).
- A native deletion that fails leaves an attachment that is no longer counted, so that the branch
  commented as one that should never happen is reached later (`ResourceDb.FailedDeletionMiscounts`;
  exactly when, `ResourceDb.DetachExactly` and `ResourceDb.CountsExactly`).
- A participant with a topic that no reader or writer ever used, or whose topic is refused, cannot
  be deleted: topics go only with their last reader or writer
  (`NativeRetry.UnusedTopicHoldsParticipant`; exactly when, `NativeDelete.NativeEntities.DeleteEntity`).
- A deletion that the domain refused cannot be repeated: the record is finalized by then, so the
  repeated call answers well and does nothing. As long as that record is there the entity goes only
  through a record of something that contains it, a participant never (`FailedDeletions.RefusedOnceStays`; exactly when,
  `NativeRuns.FinalizedGoesExactly`, `NativeRuns.ParticipantStays` and
  `ResourceWorld.FailedParticipantStays`).
- A deletion that breaks off between marking a record and finalizing it keeps that entity and all
  that contains it: later deletions take the mark for done, answer well and delete nothing
  (`FailedDeletions.BrokenOffHoldsParticipant`). This lasts as long as the record is in the table:
  until its last attachment is detached for deletion (`FailedDeletions.RemovalFreesParticipant`;
  `ResourceWorld.StuckStep`), and for good exactly if the record's own detachment has counted it
  down (`ResourceWorld.StuckForGoodExactly`).
- A subscriber created by reference under a name that a publisher has already is attached to the
  publisher, under a subscriber's id (`AttachIds.TwoKindsOneName`; exactly when,
  `AttachIds.IdsSoundExactly`).
- A resource created with the invalid id is attached under it, although an id was generated
  (`AttachIds.SoundExactly`; `dds-agent/src/impl_ndds/NddsAgent.c`, line 1462).
- Counting a reference that starts with "::" never ends (`EntityNames.CounterEndsExactly`).
- Reads that start at the first cached sample forward samples again, and let the last returned
  number pass the last forwarded one (`ReadSeries.StartPointDecides`). Starting at the last returned
  number is as safe as at the last forwarded one.
- A locator mapping that names the invalid key is not corrected by a client without a key in its
  header (`Mappings.OpenedLeadsToKey`).

## Readings of the source

- Detaching unlinks the attachment. The source gives its buffer back without a visible removal.
- `dds_sn` of a received sample is its reception sequence number.
- The buffer of a sample that is handed up without being retained goes back to neither list.
- A read that cannot be set up leaves the attachment without change.
- Resource records are found by their reference string alone, whatever their kind. The kinds
  without a DDS entity are told apart by the codes of their XRCE object kinds, which are above six
  and otherwise the XRCE library's. Attachments of all sessions are one list in which each has its
  session.
- DDS lists contained entities in some order, which is open and may differ from call to call. An
  entity's reference is a function of the entity; two entities may share one. An entity that comes
  is not one that a record still names.
- The kind of a record that is finalized is unknown; its pointer to the entity is kept but no search
  compares it any more.
- The send queue's library call removes every message of the stream up to a number and tells the
  listener of each; `send` never completes at once; message numbers on a stream only go up.

## Model

| member | source | states |
|---|---|---|
| `SessionState.GiveBack` | dds-agent/src/impl_ndds/NddsAgentIntf.c:1081-1162 | giving sample `i` back takes that one out of the pending list; the read leaves its DDS reader only when it is complete and nothing is pending any more |
| `SessionState.Drain` | src/service/Agent.c:3016-3063 | when the dismissal loop ends by itself no matching forward request is left; every turn shortens the send queue |
| `Loans.MineRemove` | src/service/ProxyClient.c:626-652 | dropping one forward request takes exactly its sample from its reader's pending samples and nothing from any other reader's |
| `Loans.SampleOfForward` | dds-agent/src/impl_ndds/NddsAgentIntf.c:1055-1071 | the search for a returned sample finds it, at the rank of its forward request among its reader's |
| `Loans.DropForwardEffect` | dds-agent/src/impl_ndds/NddsAgentIntf.c:1081-1093 | dropping a forward request takes its sample and no other out of its reader's read, puts the sample's buffer at the end of the reuse pool, notes the loan as returned and raises the reader's last returned number to the sample's |
| `Loans.ReleaseIsDrop` | src/service/ProxyClient.c:609-681 | a released DATA message dismisses the forward request of its own rank; any other message dismisses none |
| `Loans.ReleaseKeepsInv` | src/service/ProxyClient.c:683-735 | acknowledgement, local loss and dismissal keep the loan invariant: forward requests, pending samples, queued DATA messages and outstanding loans correspond one to one, no buffer is in two places, every loan is given back once |
| `Loans.ProcessKeepsInv` | dds-agent/src/impl_ndds/NddsClientSession.c:217-365 | whatever becomes of an arriving sample, the loan invariant stays |
| `Loans.EndCancelKeepsInv` | dds-agent/src/impl_ndds/NddsAgent.c:2464-2508 | taking down a read with nothing pending keeps the loan invariant |
| `Loans.DrainKeepsInv` | src/service/Agent.c:3016-3063 | the dismissal loop keeps the loan invariant up to its end or its first wait |
| `Dismissal.SurvivorsStep` | src/service/Agent.c:3052-3062 | one turn of the loop leaves the set of requests that will survive the dismissal unchanged, although it may take requests that do not match |
| `Dismissal.DrainSurvivors` | src/service/Agent.c:3016-3063 | the failure branch of the loop is never taken, and what is left are exactly the requests that no matching one outranks on its own stream |
| `Dismissal.DismissalExact` | src/service/Agent.c:3001-3068 | a whole dismissal, waits included, ends, never fails, and leaves exactly the requests no matching one outranks, whatever clock and resource table answer |
| `Dismissal.DismissalReturns` | src/service/Agent.c:3001-3068 | the loan of every request that went was given back, and after a dismissal for a reader or for all on any stream nothing is pending there |
| `ClientSessions.StillWorking` | src/service/Agent.c:3052-3055 | while a message up to the chosen request's own is queued, that request stays the first matching one |
| `ClientSessions.ClientSession.ReturnLoan` | dds-agent/src/impl_ndds/NddsAgentIntf.c:983-1204 | giving a loan back in place, by linear search, is the specified return |
| `ClientSessions.ClientSession.DismissForwardRequest` | src/service/ProxyClient.c:609-681 | search and removal in place are the specified dismissal of the request sent as one message |
| `ClientSessions.ClientSession.OnMessageGone` | src/service/ProxyClient.c:683-735 | a message that leaves the queue dismisses its request, and a read completed by it is cancelled |
| `ClientSessions.ClientSession.DismissSendQueueUpTo` | src/service/Agent.c:3052-3061 | at least one message goes, none up to the request's own is left, and the dismissal still comes to the same |
| `ClientSessions.ClientSession.DismissForwards` | src/service/Agent.c:3001-3068 | the two-level loop in place never fails, comes to the same as the loop over single messages, and leaves exactly the surviving requests in order |
| `ClientSessions.ClientSession.OnDataReceived` | src/service/Agent.c:2535-2788 | a sample is retained exactly when it is sent on a reliable stream; then, and only then, one forward request, one queued message and one loan are added; again is asked for exactly when there was no room |
| `ClientSessions.ClientSession.ProcessSample` | dds-agent/src/impl_ndds/NddsClientSession.c:217-365 | offering a sample in place is the specified step on buffers, read, attachment and forward requests |
| `ClientSessions.ClientSession.ReadFromReader` | dds-agent/src/impl_ndds/NddsAgent.c:4280-4429 | the read loop over the cache in place is the specified read attempt, whose outcome is ReadAttemptExact |
| `ClientSessions.ClientSession.CancelRead` | dds-agent/src/impl_ndds/NddsAgent.c:2433-2532 | a read is cancelled unless samples are pending or it is in another worker's hands; otherwise nothing changes |
| `ClientSessions.ClientSession.SweepCompletedReads` | dds-agent/src/impl_ndds/NddsAgent.c:5242-5331 | the sweep in place is the specified sweep and keeps the loan invariant; what that takes and leaves is SweepLeavesNone and SweepSpares |
| `WorkerFrames.PerformFrame` | dds-agent/src/impl_ndds/NddsAgent.c:2473-2508 | no instruction of a worker disturbs a read whose cancellation another worker awaits, and the loan invariant stays |
| `WorkerFrames.RunFrame` | dds-agent/src/impl_ndds/NddsAgent.c:2464-2508 | the same for a worker's whole run between two points where the session lock is released |
| `WorkerSafety.RunUnrefused` | dds-agent/src/impl_ndds/NddsAgentIntf.c:274-328 | a run that begins with dismissing all, or with no forward request left, is never refused a cancellation |
| `WorkerSafety.RunDelete` | src/service/Agent.c:2074-2081 | deleting a reader is never refused the cancellation of its read |
| `WorkerSafety.NonePending` | dds-agent/src/impl_ndds/NddsAgent.c:2464-2471 | samples can be pending after a dismissal for their reader only on a stream other than the dismissed one |
| `WorkerRuns.PutInv` | dds-agent/src/impl_ndds/NddsAgent.c:819-934 | a worker's progress, put back among the others, keeps everything that holds of the system |
| `WorkerRuns.WokenTold` | dds-agent/src/impl_ndds/NddsAgent.c:2499-2508 | a worker that wakes up in whatever state the others left does what its kind may do; only a READ or the cleaner can be refused |
| `WorkerTheorems.StepGood` | dds-agent/src/impl_ndds/NddsAgentIntf.c:261-328 | every step of every worker keeps the invariant, changes the life-cycle flags only as its kind of worker may, and is refused only where excused; what becomes of the resetting flag is ResettingExactly |
| `WorkerTheorems.LoansAlwaysExact` | src/service/Agent.c:2696-2784 | in every state that any interleaving reaches the loan invariant holds |
| `WorkerTheorems.RefusalsExcused` | dds-agent/src/impl_ndds/NddsAgent.c:2464-2471 | in any interleaving only a READ, or the cleaner of a session that timed out while a DELETE of its client was still giving samples back, is refused "cannot cancel read with cached samples" |
| `WorkerTheorems.ReadRefusedExactly` | src/service/Agent.c:2871-2892 | a READ that need not wait first is refused exactly when a forward request of its reader travels on another stream than the requested one |
| `ReadSetUp.RunCancelled` | src/service/Agent.c:2857-2932 | with its dismissal behind it a READ is refused with samples pending, gives up at a read in another worker's hands, awaits the cancellation of an open one, and sets up its read otherwise, touching no other reader |
| `ReadSetUp.ReadComesTo` | dds-agent/src/impl_ndds/NddsAgent.c:2284-2380 | in any interleaving, a READ that comes to its end was refused for pending samples, finds its reader gone or its read in another worker's hands, or has set up a fresh read with the bounds, pace and start asked for, at the number its start point says, forwarding; its reader is on the requested stream at once |
| `ReadEnds.NeverCutShort` | dds-agent/src/impl_ndds/NddsAgent.c:5242-5331 | in any interleaving an open read that is not complete outlasts every step but those of a READ, the deletion of a reader, a reset and the cleaner: no sweep, release, timer or closer ends it |
| `ReadMarks.CompleteReadsHaveAll` | dds-agent/src/impl_ndds/NddsClientSession.c:399-444 | in every state of every interleaving a read marked complete is bounded and has received as many samples as its bound |
| `ReadMarks.ExpireMarksExactly` | dds-agent/src/impl_ndds/NddsClientSession.c:399-444 | a look at the clock marks an open read complete exactly when it is bounded, its time is over and its samples are in, and changes nothing else |
| `WorkerOutcomes.DataComesTo` | dds-agent/src/impl_ndds/NddsClientSession.c:217-365 | a sample of a reader with a read is offered exactly while the session is active and the read open and not complete, and for the reader that is an offer to it alone; other readers are untouched |
| `WorkerOutcomes.ReplyComesTo` | src/service/Agent.c:1123-1138 | a STATUS for a reliable stream of an active session is queued behind the messages of its stream and changes nothing of other streams or of the data messages |
| `WorkerOutcomes.ReleaseComesTo` | src/service/ProxyClient.c:609-681 | in any interleaving a message that leaves the queue of an active session takes the forward request of its own rank with it and gives that loan and buffer back, no other; a read that this completes is awaited by the releaser |
| `WorkerOutcomes.DeleteComesTo` | src/service/Agent.c:2074-2081 | in any interleaving the deletion of a reader that comes to its end leaves the reader detached, or its read in another worker's hands |
| `WorkerOutcomes.ClientDeleted` | src/service/Agent.c:788-814 | a DELETE of the client leaves it disposed, and its closer with no forward request left or still at dismissing them |
| `WorkerOutcomes.CloserComesTo` | dds-agent/src/impl_ndds/NddsAgentIntf.c:477-547 | in every reached state a closer that has the lock again closes the session exactly if it is still active, awaits the cleaner then, and once the cleaner is through takes the record away with its callback |
| `WorkerOutcomes.CleanerComesTo` | dds-agent/src/impl_ndds/NddsAgent.c:3010-3135 | in any interleaving a cleaner that comes to its end was refused, met a read in another worker's hands, or has ended the session: taken the record of one that timed out away, given the closer of any other its sign |
| `WorkerOutcomes.TimerComesTo` | dds-agent/src/impl_ndds/NddsAgent.c:605-660 | in any interleaving the timer that comes to its end has deleted the session |
| `ResetRuns.RunTail` | dds-agent/src/impl_ndds/NddsAgentIntf.c:289-328 | after its dismissal a reset passes over the readers without a read, closes and awaits the first one with a read unless another worker has it in hand, and makes the session active again only when there is none |
| `ResetRuns.ResettingExactly` | dds-agent/src/impl_ndds/NddsAgentIntf.c:251-328 | in every run, of a session whose record is there: it is resetting with no resetter at work if and only if some resetter has given up at a read that another worker had in hand |
| `ResetRuns.HeldForGood` | dds-agent/src/impl_ndds/NddsAgentIntf.c:313-326 | a session that a resetter gave up on stays resetting however the run goes on, and unless it was being closed already none of its flags changes again: it is never closed |
| `ResetReads.AtOnceExactly` | dds-agent/src/impl_ndds/NddsAgentIntf.c:251-328 | in every reached state a reset gets through without a wait exactly if its dismissal does not wait and no reader of its order has a read |
| `ResetReads.ThroughExactly` | dds-agent/src/impl_ndds/NddsAgentIntf.c:289-328 | in every reached state a resetter that wakes up gets through exactly if no dismissal has to wait and none of the readers still to be cancelled has a read; if it ends there, the reads are those there were but for the one it awaited |
| `ResetReads.ResetClears` | dds-agent/src/impl_ndds/NddsAgentIntf.c:289-328 | a resetter that gets through, whoever came in between, leaves no read on a reader of its order unless a READ of that reader was under way when it began |
| `ResetReads.ResetEmpties` | dds-agent/src/impl_ndds/NddsAgentIntf.c:261-328 | in any interleaving a resetter that comes to its end, through or giving up, leaves no forward request and no message in the send queue |
| `ResetRaces.ResetDuringRead` | dds-agent/src/impl_ndds/NddsAgentIntf.c:313-326 | a concrete run: a reset meets a read that a READ is cancelling and gives up; however the run goes on the session stays resetting, present and unclosed |
| `ResetRaces.ResetOvertaken` | dds-agent/src/impl_ndds/NddsAgentIntf.c:289-328 | a concrete run: a READ under way sets up its read on a reader that the resetter has passed; the reset gets through and leaves it open |
| `TimeoutRace.TimeoutDuringDelete` | dds-agent/src/impl_ndds/NddsAgent.c:645-660 | a concrete run: the timer strikes while the DELETE awaits a cancellation, dismisses nothing because the client is disposed of already, and the cleaner is refused |
| `TimerStrikes.TimerHoldsExactly` | dds-agent/src/impl_ndds/NddsAgent.c:605-660 | in every state a run leads to where the timer strikes: a cleaner can still be refused later exactly when the client counts as disposed already and some of its samples are still out |
| `TimerStrikes.DrainingSuffices` | src/service/Agent.c:788-814 | a run in which the timer never strikes in such a state never has a cleaner refused, whatever else happens and with whatever answers |
| `SessionClosing.ClosedOnce` | dds-agent/src/impl_ndds/NddsAgent.c:5127-5157 | the session-closed callback ran exactly once for a record that is gone and never for one that is there |
| `SessionClosing.OneWinner` | dds-agent/src/impl_ndds/NddsAgentIntf.c:477-547 | `deleted` is set by the timer if it struck first and else by the closer; record and callback go by the cleaner if the timer struck first and else by the closer |
| `SessionClosing.WinnerForGood` | dds-agent/src/impl_ndds/NddsAgent.c:797-803 | once decided, the winner of timer and closer stays the same however the run goes on |
| `SessionClosing.GoneForGood` | dds-agent/src/impl_ndds/NddsAgent.c:5140-5146 | no step touches a session whose record is gone |
| `SessionClosing.CleanupRefusedExactly` | dds-agent/src/impl_ndds/NddsAgent.c:3010-3090 | a cleaner is refused exactly when the first reader in its order that has a read has samples pending, and at that reader |
| `SessionEnd.AllReturnedAtTheEnd` | dds-agent/src/impl_ndds/NddsAgent.c:3016-3135 | in any interleaving, when a session's record is gone it has no reader and no forward request, and each loan ever made on it was given back exactly once |
| `Sweep.CompleteStays` | dds-agent/src/impl_ndds/NddsClientSession.c:399-444 | completeness grows with time and with samples given back |
| `Sweep.LastReturnEnds` | dds-agent/src/impl_ndds/NddsAgentIntf.c:1130-1164 | a read that was complete once ends with the return of its last pending sample and not before |
| `Sweep.SweepOneExactly` | src/service/AgentIntf.c:805-810 | releasing a complete read's samples ends it unless, and only unless, some forward request of its reader is on a stream other than the reader's |
| `Sweep.SweepLeavesNone` | dds-agent/src/impl_ndds/NddsAgent.c:5242-5331 | after a sweep no read that was complete when it began is active, whatever other reads complete on the way |
| `Sweep.SweepSpares` | dds-agent/src/impl_ndds/NddsAgent.c:5250-5252 | a reader without a read, or with one that is not complete and has nothing pending, is the same reader after a sweep of any readers |
| `Sweep.CancelsExactly` | dds-agent/src/impl_ndds/NddsAgent.c:2455-2482 | cancelling a read works exactly if there is none, or an open one with nothing pending, and changes nothing otherwise; other readers are untouched |
| `SweepRuns.SweptAtOnce` | src/service/AgentIntf.c:805-810 | a sweep that need not wait leaves no forward request of its reader on the reader's stream, and samples pending exactly if some are on another stream, in every state of every interleaving |
| `SweepRuns.SweptAtLast` | src/service/AgentIntf.c:805-810 | the same for a sweep that had to wait, whatever other workers did in between and whatever clock and resource table answered |
| `SweepRuns.SweepEnds` | dds-agent/src/impl_ndds/NddsAgent.c:5242-5331 | over every interleaving without a READ of the reader in the windows and with good answers: once a sweep of a read that was complete when it began is through, and ever after, the read is gone or in hand to be cancelled, unless a request of its reader is on another stream |
| `ReadLoop.Offer` | dds-agent/src/impl_ndds/NddsClientSession.c:245-351 | a sample that is handed up is newer than all before, comes no sooner than the pace allows, and becomes the last forwarded; otherwise nothing changes |
| `ReadLoop.BatchExact` | dds-agent/src/impl_ndds/NddsAgent.c:4339-4372 | one batch hands up exactly the valid samples between where the read was and where it is then, in order; at the end of the cache it has caught up |
| `ReadLoop.BatchBreaksOff` | dds-agent/src/impl_ndds/NddsAgent.c:4339-4405 | a batch breaks off exactly at the first sample that asks for another try or fails, with the delay that sample asks for, and all before it are behind the read |
| `ReadLoop.BatchPaced` | dds-agent/src/impl_ndds/NddsClientSession.c:261-273 | a batch continues a paced log with a paced log |
| `ReadLoop.AttemptExact` | dds-agent/src/impl_ndds/NddsAgent.c:4305-4425 | an attempt on a read that is over hands up nothing and marks it complete; any other hands up exactly the valid samples in between, and marks the read complete exactly when it came to the end of the cache with the read over by then; it stays delayed and available exactly if it is to be tried again |
| `ReadLoop.WindowBound` | dds-agent/src/impl_ndds/NddsClientSession.c:261-273 | a window of length t holds at most t / pace + 1 deliveries |
| `ReadLoop.RetryDelayExact` | dds-agent/src/impl_ndds/NddsAgent.c:4393-4405 | a retry is too soon again if and only if it comes before the requested delay is over |
| `SessionReads.ProcessIsOffer` | dds-agent/src/impl_ndds/NddsClientSession.c:217-365 | for the reader, a sample offered to the whole session is a sample offered to the reader alone; other readers are untouched |
| `SessionReads.BuffersBalance` | dds-agent/src/impl_ndds/NddsClientSession.c:217-365 | a sample that is handed up takes one buffer, from the reuse pool while there is one; any other leaves as many as there were, and all else as it was |
| `SessionReads.BatchRefines` | dds-agent/src/impl_ndds/NddsAgent.c:4339-4372 | the loop on the session refines the loop on the reader alone |
| `SessionReads.ReadBatchExact` | dds-agent/src/impl_ndds/NddsAgent.c:4339-4372 | a batch on a session hands up exactly the valid samples in between, in order |
| `SessionReads.AttemptRefines` | dds-agent/src/impl_ndds/NddsAgent.c:4280-4429 | a read attempt on a session is, for the reader, the attempt on the reader alone |
| `SessionReads.ReadAttemptExact` | dds-agent/src/impl_ndds/NddsAgent.c:4305-4425 | the same on a session, where an attempt on a read that is over makes no forward request, message or loan |
| `SessionReads.BatchElsewhere` | dds-agent/src/impl_ndds/NddsAgent.c:4339-4372 | a batch touches no other reader |
| `SessionReads.ReadAttemptKeepsInv` | dds-agent/src/impl_ndds/NddsAgent.c:4280-4429 | a read attempt keeps the loan invariant |
| `ReaderCache.MinLast` | dds-agent/src/impl_ndds/NddsReader.c:445-458 | the number to dismiss up to is not above any request's last sample and is one of them |
| `ReaderCache.TakeUpTo` | dds-agent/src/impl_ndds/NddsReader.c:469-556 | only a front part of the cache is taken, no valid sample above the target, and in an ascending cache nothing is left that is not above it |
| `ReaderCache.UpdateKeepsExact` | dds-agent/src/impl_ndds/NddsReader.c:423-568 | dismissing what every request has passed takes nothing any request still wants |
| `ReaderCache.NoneLostNoneRepeated` | dds-agent/src/impl_ndds/NddsAgent.c:4339-4405 | over any run of arrivals, retries, errors, other requests and dismissals each request has handed up exactly the valid samples above its start and up to where it is, in order, at the pace and within the bounds it was asked for; each is pending, counted or came back uncounted |
| `ReaderCache.UpdateExactly` | dds-agent/src/impl_ndds/NddsReader.c:461-556 | of the valid samples in the cache an update dismisses exactly those whose number every request has passed |
| `ReaderCache.KeptExactly` | dds-agent/src/impl_ndds/NddsReader.c:423-568 | over any run: after an attempt that hands up something a valid sample is still in the cache exactly if some request has still to pass it |
| `ReaderCache.CatchesUp` | dds-agent/src/impl_ndds/NddsAgent.c:4339-4372 | over any run: an attempt that comes to the end of the cache has handed up every valid sample that arrived since its request was made, above its start; a read that is over or complete hands up nothing more |
| `ReaderCache.SharedReader.FindMinLast` | dds-agent/src/impl_ndds/NddsReader.c:445-458 | the loop over the requests finds the lowest last sample |
| `ReaderCache.SharedReader.DismissPassed` | dds-agent/src/impl_ndds/NddsReader.c:461-556 | the peek-and-take loop is the specified dismissal, which takes just what all have passed by UpdateExactly |
| `ReadSeries.RunKeepsInv` | dds-agent/src/impl_ndds/NddsAgent.c:2309-2328 | starting after the last returned or forwarded number, forwarded numbers strictly increase over all reads of an attachment and returned ones stay behind |
| `ReadSeries.StartPointDecides` | dds-agent/src/impl_ndds/NddsAgent.c:2309-2328 | both hold in every run exactly when reads do not start at the first cached sample |
| `DeliveryControls.UsesLast` | src/service/Agent.c:2889-2900 | a READ is delivered under the delivery control given last for its reader, by it or before it, and under none if none was given |
| `DeliveryControls.AsAskedExactly` | src/service/Agent.c:2889-2900 | the READs of a reader are all delivered as they asked if and only if none without a control comes after a bounded one that none has lifted in between |
| `DeliveryControls.ReaderState.TakeControl` | src/service/Agent.c:2889-2900 | in place: a control that is given replaces the one kept, and the one kept is what the read is delivered under |
| `EntityNames.FindSep` | dds-agent/src/impl_ndds/NddsEntityName.c:88-89 | the first separator, nothing before it |
| `EntityNames.PrintOfParse` | dds-agent/src/impl_ndds/NddsEntityName.c:121-206 | printing what was parsed gives the reference back, less at most one separator at its end |
| `EntityNames.ParseOfPrint` | dds-agent/src/impl_ndds/NddsEntityName.c:235-300 | parse after print is the identity exactly for non-empty lists of non-empty names without separator, none but the last ending in ':' |
| `EntityNames.ParseOfPrefix` | dds-agent/src/impl_ndds/NddsEntityName.c:235-300 | printing to depth k and parsing gives the first k components |
| `EntityNames.ValidExactly` | dds-agent/src/impl_ndds/NddsEntityName.c:72-119 | a reference that does not start with a separator is valid exactly when it is not empty and has no four colons in a row |
| `EntityNames.CounterEndsExactly` | dds-agent/src/impl_ndds/NddsEntityName.c:79-111 | the counting loop ends exactly for references that do not start with a separator; on one that does it stays at the start |
| `EntityNames.StrStr` | dds-agent/src/impl_ndds/NddsEntityName.c:88-89 | scanning finds the first separator from a position on |
| `EntityNames.CountRefComponents` | dds-agent/src/impl_ndds/NddsEntityName.c:47-119 | counting gives the number of components of a valid reference, its length and start 0, and zeros for an invalid one |
| `EntityNames.EntityName.Split` | dds-agent/src/impl_ndds/NddsEntityName.c:161-188 | every allocated place is filled with its component; the remaining length never goes below zero |
| `EntityNames.EntityName.ParseRefComponents` | dds-agent/src/impl_ndds/NddsEntityName.c:121-206 | parsing succeeds exactly for valid references and gives their components |
| `EntityNames.EntityName.FromRef` | dds-agent/src/impl_ndds/NddsEntityName.c:209-232 | a name takes the components of a valid reference and keeps its own otherwise |
| `EntityNames.EntityName.ToRef` | dds-agent/src/impl_ndds/NddsEntityName.c:235-300 | printing fails exactly when asked for more depth than there is, and fills its buffer with the joined components |
| `NativeDomain.FreedThen` | dds-agent/src/impl_ndds/NddsAgent.c:3766-3822 | over two deletions the topics freed are those that lost all their readers and writers to either, refused ones apart |
| `NativeDomain.TookThen` | dds-agent/src/impl_ndds/NddsAgent.c:3482-3871 | parts deleted one after the other: each entity once, contents first, and beside them exactly the topics that lost their last reader or writer |
| `NativeDomain.GoesSplits` | dds-agent/src/impl_ndds/NddsAgent.c:3517-3871 | an entity goes exactly when it is neither refused nor hindered by its record and so is all it contains |
| `NativeDomain.ReachedSame` | dds-agent/src/impl_ndds/NddsAgent.c:3530-3552 | what lies apart from a deletion would later be come to, and taken, as it would have been before |
| `NativeDelete.AllGone` | dds-agent/src/impl_ndds/NddsAgent.c:3482-3871 | once nothing is contained in an entity any more, all that was under it has gone |
| `NativeDelete.TopicsLeft` | dds-agent/src/impl_ndds/NddsAgent.c:3581-3586 | with all under a participant gone, nothing is left in it exactly when each of its topics was used and is not refused |
| `NativeDelete.ItselfGoes` | dds-agent/src/impl_ndds/NddsAgent.c:3581-3586 | after its contents were dealt with without error, an entity can be taken off the domain exactly when all of its tree goes, and its topics with it |
| `NativeDelete.GoesReachesAll` | dds-agent/src/impl_ndds/NddsAgent.c:3482-3871 | when all of a tree goes the deletion comes to all of it and takes all of it, whatever the order |
| `NativeDelete.ListReachedAll` | dds-agent/src/impl_ndds/NddsAgent.c:3530-3552 | a list dealt with up to its first error has come to exactly those that every earlier one of the kind lets have their turn |
| `NativeDelete.NativeEntities.ListContained` | dds-agent/src/impl_ndds/NddsAgent.c:3517-3541 | all contained entities of a kind are listed, each once, in the order of the domain |
| `NativeDelete.NativeEntities.FindContainedAndDelete` | dds-agent/src/impl_ndds/NddsAgent.c:3378-3478 | no error exactly when the contained entity goes, or its record was marked before and hides it; taken is exactly what is come to and goes, finalized or marked exactly the live records on the way |
| `NativeDelete.NativeEntities.DeleteContained` | dds-agent/src/impl_ndds/NddsAgent.c:3530-3552 | works exactly when each contained entity of the kind passes; up to the first error, exactly what is come to and goes is taken |
| `NativeDelete.NativeEntities.DeleteContents` | dds-agent/src/impl_ndds/NddsAgent.c:3503-3578 | the same for subscribers and then publishers, which are come to only if every subscriber passed, or readers, or writers |
| `NativeDelete.NativeEntities.DeleteEntity` | dds-agent/src/impl_ndds/NddsAgent.c:3482-3871 | succeeds if and only if nothing in the tree is refused or hindered and, of a participant, every topic is unrefused and used in the tree; whether it succeeds or not, exactly what it comes to and goes is taken, each entity once and contents first, with exactly the topics freed |
| `NativeDelete.NativeEntities.DeleteResource` | dds-agent/src/impl_ndds/NddsAgent.c:3876-4069 | is the specified call on entities and records; case by case: a missing or marked record changes nothing; one without kind or broken is only marked and fails; one whose entity is gone is finalized; else success and what goes are as for the entity, and the recursion ends because the kind's rank falls |
| `NativeRuns.EntityKeepsSound` | dds-agent/src/impl_ndds/NddsAgent.c:4766-4800 | what the deletions require of entities and records holds after each new entity, as it does at the start |
| `NativeRuns.RecordKeepsSound` | dds-agent/src/impl_ndds/NddsAgent.c:4845-4905 | and after each record made for an entity that has none |
| `NativeRuns.CallKeepsSound` | dds-agent/src/impl_ndds/NddsAgent.c:3876-4069 | and after every call, however it ends |
| `NativeRuns.TakenClosed` | dds-agent/src/impl_ndds/NddsAgent.c:3482-3871 | whatever a deletion takes goes with all it contains |
| `NativeRuns.CallTakesExactly` | dds-agent/src/impl_ndds/NddsAgent.c:3876-4069 | one call takes an entity exactly when it is on a live, unbroken record of an entity that is it or contains it, the deletion comes to it, and its tree goes; a participant itself only with its topics |
| `NativeRuns.RunTakesExactly` | dds-agent/src/impl_ndds/NddsAgent.c:3876-4069 | over every run of calls an entity goes if and only if one of them takes it in this sense |
| `NativeRuns.GoesTakes` | dds-agent/src/impl_ndds/NddsAgent.c:3876-4069 | a call whose own tree goes takes all of it, a participant itself only with its topics |
| `NativeRuns.FinalizedGoesExactly` | dds-agent/src/impl_ndds/NddsAgent.c:3902-3912 | once its own record was finalized or marked, an entity goes in a run of calls if and only if one of them is on a live, unbroken record of an entity that contains it, and takes it from there |
| `NativeRuns.ParticipantStays` | dds-agent/src/impl_ndds/NddsAgent.c:3902-3912 | a participant whose record was finalized or marked is never taken by any call |
| `NativeRetry.StrandedExactly` | dds-agent/src/impl_ndds/NddsAgent.c:3902-3912 | a call leaves a record marked but not finalized exactly where it was so before, or where it came to an entity whose record is broken |
| `NativeRetry.StrandedStays` | dds-agent/src/impl_ndds/NddsAgent.c:3902-3912 | an entity whose record is marked but not finalized stays through a call, and so does all that contains it |
| `NativeRetry.RetryGoes` | dds-agent/src/impl_ndds/NddsAgent.c:4023-4023 | after calls that only the domain refused, no record stands in the way of an entity's tree: only a refusal would; whether a call comes to it is FinalizedGoesExactly |
| `NativeRetry.UnusedTopicHoldsParticipant` | dds-agent/src/impl_ndds/NddsAgent.c:3581-3586 | a concrete case: a topic no reader or writer used keeps its participant |
| `ResourceWorld.DetachCoupled` | dds-agent/src/impl_ndds/NddsAgent.c:1043-1074 | a detachment with its native deletion is one step on counts and records: the record goes from both or from none, the last attachment of a record to be deleted takes it exactly when the native deletion answers well, and the detachment fails there exactly when that does not |
| `ResourceWorld.StepInv` | dds-agent/src/impl_ndds/NddsAgent.c:936-1127 | over entities, records, counts and attachments together: every move keeps entities and records sound and coupled, each record counts its attachments or is dead and counted down, and a participant's record dies counted down |
| `ResourceWorld.StaysForGoodExactly` | dds-agent/src/impl_ndds/NddsAgent.c:990-999 | a dead record stays in every run if and only if its attachments were counted down; else some run of detachments removes it |
| `ResourceWorld.StuckStep` | dds-agent/src/impl_ndds/NddsAgent.c:1053-1072 | a stuck entity and all that contains it stay through any move; it is stuck on if and only if the move does not detach the last attachment of its record for deletion, and has no record otherwise |
| `ResourceWorld.StuckWhileRecorded` | dds-agent/src/impl_ndds/NddsAgent.c:3902-3912 | over every run, as long as its marked record is in the table a stuck entity stays, and everything that contains it, which no deletion can take |
| `ResourceWorld.StuckForGoodExactly` | dds-agent/src/impl_ndds/NddsAgent.c:990-999 | an entity is stuck in every run if and only if its record was counted down, as by its own detachment |
| `ResourceWorld.FailedParticipantStays` | dds-agent/src/impl_ndds/NddsAgent.c:3902-3912 | a participant whose deletion failed once stays in every run of creations, attachments and detachments |
| `FailedDeletions.RefusedOnceStays` | dds-agent/src/impl_ndds/NddsAgent.c:3902-3912 | a concrete run from the empty agent: the domain refuses a participant once; a repeated deletion answers well and changes nothing, and the participant stays however the run goes on |
| `FailedDeletions.BrokenOffHoldsParticipant` | dds-agent/src/impl_ndds/NddsAgent.c:3911-3974 | a concrete run: a subscriber's deletion breaks off at its reader; the participant, which went before, stays as long as the reader's record does |
| `FailedDeletions.RemovalFreesParticipant` | dds-agent/src/impl_ndds/NddsAgent.c:1053-1072 | the run goes on: the reader's session detaches from it, which removes the record, and the participant's deletion takes all three |
| `ResourceDb.DetachExactly` | dds-agent/src/impl_ndds/NddsAgent.c:981-1074 | detaching keeps every count equal to the number of attachments if and only if it does not take down the last attachment of a live resource to be deleted whose native deletion fails; that is also exactly when it fails there; the branches for an unknown resource and a zero count are never taken; a record goes only when nothing is attached to it |
| `ResourceDb.DeletionRemembered` | dds-agent/src/impl_ndds/NddsAgent.c:1017-1023 | a deletion asked for is not forgotten: after an explicit detachment the record is gone, or marked and still in use; no detachment clears a mark |
| `ResourceDb.CreateExactly` | dds-agent/src/impl_ndds/NddsAgent.c:1650-2212 | a creation keeps the counts exactly unless it announces an existing attachment again, fails, and detaches the last of a resource to be deleted that cannot be |
| `ResourceDb.CloseExactly` | dds-agent/src/impl_ndds/NddsAgent.c:3092-3135 | the closing of a session keeps the counts exactly when none of its detachments on the way miscounts |
| `ResourceDb.CleanUpExact` | dds-agent/src/impl_ndds/NddsAgent.c:5405-5462 | the clean-up of resources never miscounts: it detaches only from dead ones |
| `ResourceDb.DetachAllLeaves` | dds-agent/src/impl_ndds/NddsAgent.c:3092-3135 | a session closed without trouble has no attachment left and others keep theirs |
| `ResourceDb.FailedCreateRollsBack` | dds-agent/src/impl_ndds/NddsAgentIntf.c:743-769 | a new attachment whose announcement fails is taken back: attachments and counts are as before |
| `ResourceDb.FailedDeletionMiscounts` | dds-agent/src/impl_ndds/NddsAgent.c:1049-1063 | a concrete run: a failed native deletion has counted its attachment down and keeps it, and a second attempt meets the zero count |
| `ResourceDb.CountsExactly` | dds-agent/src/impl_ndds/NddsAgent.c:1017-1074 | for every run: the counts are exact at its end if and only if none of its steps miscounts; what is miscounted once is never put right |
| `ResourceDb.ShutdownFindsZero` | dds-agent/src/impl_ndds/NddsAgent.c:2871-2881 | after any run, with all attachments gone the shutdown never meets a non-zero count |
| `ResourceSweeps.CleanedUp` | dds-agent/src/impl_ndds/NddsAgent.c:5405-5462 | a clean-up from exact counts is stopped only by a read that cannot be cancelled; otherwise the attachments left are exactly those to live resources, and the record of every dead resource that was attached is gone |
| `ResourceSweeps.AttachAllCovers` | dds-agent/src/impl_ndds/NddsAgent.c:1302-1388 | an automatic attachment that goes through adds, to the attachments there were, only ones to live resources of the list under the ids of their names, each the first under its id, and then every live resource of the list has an attachment under its id; one live resource without a DDS entity makes it fail |
| `ResourceSweeps.OwnAttachment` | dds-agent/src/impl_ndds/NddsAgent.c:1302-1388 | after it a live resource of the list has an attachment of its own unless its id was taken by an earlier attachment of the session or by one of the list with the same kind and the same low twelve digest bits |
| `ResourceSweeps.CloseAsksNothing` | dds-agent/src/impl_ndds/NddsAgent.c:3092-3135 | the closing of a session asks for no deletion and leaves every record whose deletion nobody asked for, however it goes |
| `ResourceSweeps.DeletionAsks` | dds-agent/src/impl_ndds/NddsAgent.c:1017-1074 | a client's deletion of an attached resource takes its attachment away unless the read cannot be cancelled or the native deletion fails, and leaves its record gone or marked; under an id that is not attached it changes nothing |
| `ResourceSweeps.CreatesExactly` | dds-agent/src/impl_ndds/NddsAgent.c:1650-2212 | a creation succeeds exactly if its record can be found by reference or made, or its attachment is there, fits and may be used as it is, and both upcalls go well; then the attachment is the one there or a new one at the end, counted once |
| `AttachIds.CreateExactlySound` | dds-agent/src/impl_ndds/NddsAgent.c:1843-2110 | a creation keeps ids sound exactly unless it adds an attachment whose id is not for the kind of the record it came upon |
| `AttachIds.SoundExactly` | dds-agent/src/impl_ndds/NddsAgent.c:1413-1499 | for every run: ids are distinct in their session, never the invalid one and of their attachment's kind throughout if and only if no creation adds such a misfit |
| `AttachIds.IdsSoundExactly` | src/service/Agent.c:1563-1570 | for every run whose creation requests had their ids checked: the ids are sound throughout if and only if no creation by reference is attached to a live record of another kind |
| `AttachIds.TwoKindsOneName` | dds-agent/src/impl_ndds/NddsAgent.c:4803-4819 | a concrete run: a publisher and then a subscriber of the same name, both ids checked; the creation of the subscriber succeeds with an attachment to the publisher |
| `AttachIds.CreatedIsFound` | dds-agent/src/impl_ndds/NddsAgent.c:1843-2110 | a creation that succeeds leaves an attachment under the requested id, the one that was there or a new one to the requested resource, which is alive; it is of the requested kind exactly when the request did not come upon a live record of another kind |
| `AttachIds.LookupFindsTheOne` | dds-agent/src/impl_ndds/NddsClientSession.c:381-394 | with sound ids a lookup finds the one attachment asked for |
| `ResourceTable.Resources.FindAttached` | dds-agent/src/impl_ndds/NddsClientSession.c:367-397 | the search through the list finds the first attachment with the id |
| `ResourceTable.Resources.CreateResource` | dds-agent/src/impl_ndds/NddsAgent.c:1843-2110 | creation in place is the specified creation, down to the record that one breaking off leaves behind |
| `ResourceTable.Resources.CloseSession` | dds-agent/src/impl_ndds/NddsAgent.c:3092-3135 | the loop over a session's attachments is the specified closing |
| `ResourceTable.Resources.CleanUpResources` | dds-agent/src/impl_ndds/NddsAgent.c:5405-5462 | the clean-up loop is the specified clean-up, which comes to CleanedUp |
| `ResourceTable.Resources.AttachAllResources` | dds-agent/src/impl_ndds/NddsAgent.c:1302-1388 | the loop over all records is the specified automatic attachment, which comes to AttachAllCovers |
| `Locks.WaitBalanced` | dds-agent/src/impl_ndds/NddsAgent.c:838-931 | the semaphore wait gives back exactly the lock set it was entered with and takes locks in rising level |
| `Locks.ScriptBalanced` | dds-agent/src/impl_ndds/NddsAgentDb.c:26-30 | every operation takes session table, session record, resource table and resource record in strictly rising level and ends without any |
| `Locks.EveryRecordLocked` | dds-agent/src/impl_ndds/NddsAgentDb.c:26-30 | every record an operation works on is locked under its session's lock, under the resource table when resources are created, attached, detached or deleted, and under the session table in a clean-up |
| `Locks.OneHolder` | dds-agent/src/impl_ndds/NddsAgentDb.c:26-30 | in any interleaving no two workers hold the same lock |
| `Locks.LevelsRise` | dds-agent/src/impl_ndds/NddsAgentDb.c:26-30 | along a chain of workers waiting for each other the levels wanted strictly rise |
| `Locks.NoCircle` | dds-agent/src/impl_ndds/NddsAgentDb.c:26-30 | in any interleaving of any operations no workers wait for each other in a circle, and none waits behind more than three others in a row |
| `Locks.LockHolder.WaitForSemaphore` | dds-agent/src/impl_ndds/NddsAgent.c:819-934 | the wait in place ends with the locks it began with and holds none of those its flags name while it waits |
| `Requests.StoreInv` | src/service/Agent.c:2861-2867 | a READ's request takes the place of the reader state's, which is returned, and still every request has one owner |
| `Requests.FinishInv` | src/service/ProxyClient.c:580-604 | the end of a submessage's handling answers and returns only what its handler has |
| `Requests.ReturnedOnceAnsweredOnce` | src/service/ProxyClient.c:580-604 | over any run no request is returned twice or answered twice, and none is returned while a handler, a reader state or the dispose slot has it |
| `Requests.AllBackWhenIdle` | src/service/ProxyClient.c:580-604 | once no handler runs, all requests but those of READ and of DELETE of the client are back in the pool |
| `Requests.FinishAnswers` | src/service/ProxyClient.c:580-604 | the end of a handler makes the STATUS still to be made unless a READ failed or it cannot be made, and returns the request of a CREATE or DELETE of an entity and that of a WRITE_DATA still in hand, no other |
| `Requests.AnsweredWhenIdle` | src/service/ProxyClient.c:580-604 | over any run, once no handler runs a request other than READ and DELETE of the client has its STATUS, or one that could not be made, if and only if an answer was asked for |
| `Requests.AnsweredEarly` | src/service/ProxyClient.c:580-604 | an answer within the handling takes the place of the one at its end: one STATUS either way, and the request goes back the same |
| `Requests.WrittenReturns` | src/service/ProxyClient.c:590-604 | a WRITE_DATA that went well returns its request at once and not again at its end |
| `Requests.ReadAnswered` | src/service/AgentIntf.c:715-734 | a READ's request takes the place of the old one, which goes back, and is answered once; the reader keeps it exactly if the STATUS was sent when the read was created or none was asked for |
| `Requests.NoneAfterEnd` | src/service/AgentIntf.c:896-899 | no request is taken up after the timer has struck or a DELETE of the client was handled |
| `Requests.DeferredReply` | src/service/AgentIntf.c:378-391 | the request of a DELETE of the client is neither answered nor returned by its handler, and both when the session is closed, if the answer can be made |
| `Requests.ProxyClient.ReplyToOperation` | src/service/Agent.c:1123-1138 | a reply clears the request's flag even when sending fails |
| `Requests.ProxyClient.StoreReadRequest` | src/service/Agent.c:2861-2867 | in place, the specified change of owner |
| `Requests.ProxyClient.OnReadCreated` | src/service/AgentIntf.c:715-734 | in place, the specified answer or loss of a READ's request |
| `Requests.ProxyClient.DisposeClientSession` | src/service/Agent.c:788-809 | in place, the specified deferral to the session's close |
| `Requests.ProxyClient.OnSubmessageDone` | src/service/ProxyClient.c:580-604 | in place, the specified end of a submessage, which answers and returns as FinishAnswers says |
| `Requests.ProxyClient.OnSessionClosed` | src/service/AgentIntf.c:378-391 | in place, the specified answer and return |
| `Mappings.LookupIsMap` | src/service/Agent.c:275-305 | the linear search gives what the finite map gives |
| `Mappings.CachedIsUpdate` | src/service/AgentIntf.c:179-238 | overwriting the found entry or appending one is an update of the map |
| `Mappings.OpenedLeadsToKey` | src/service/Agent.c:735-735 | after a client is accepted its locator leads to its key exactly unless its mapping named the invalid key and the header none; all other locators lead where they led |
| `Mappings.DecidesExactly` | src/service/Agent.c:1189-1255 | a client's message is accepted exactly when the key in its header is valid and the payload's or, without one, any client is welcome or its locator is in the map; when an accepted one is cached, exactly |
| `Mappings.RunDecides` | src/service/Agent.c:616-621 | in any run each message is accepted exactly when the map of the clients accepted before makes it acceptable |
| `Mappings.AcceptedComesBack` | src/service/Agent.c:1226-1237 | a client accepted once is accepted again from the same locator, with its header key or without, after any other clients |
| `Mappings.RunIsMap` | src/service/Agent.c:616-621 | over any run of clients the array stands for the map of the last accepted key by locator, one entry a locator |
| `Mappings.LocatorTable.FindMapping` | src/service/Agent.c:275-305 | the loop finds the first entry for a locator |
| `Mappings.LocatorTable.CacheMapping` | src/service/AgentIntf.c:179-238 | in place, with the array grown by one if need be, the specified update |
| `Mappings.LocatorTable.OpenClient` | src/service/Agent.c:1189-1255 | in place, the specified decision and caching, which accept just the messages that DecidesExactly says |

## Left out

- Transports, threads, timers' queues, command line, logging, the XML extension and the discovery visitor.
- The XRCE session's internals: reliable streams, fragments and message buffers; a sample is one message.
- Widths of integers: sequence numbers, counts and the skipped start of a reference do not wrap.
- Times are whole milliseconds.
- Content filters of a read: the cache is what the read's condition lets through.
- `max_bytes_per_second`, which the source does not implement, and a cap on samples within one batch, which it does not keep.
- Agent shutdown running beside other workers, and heartbeat events. The runs of deletions end before the shutdown, which goes through the table once more and drops dead records without a look at their entities.
- `ResourceWorld.StepInv`: runs insertions, attachments and detachments in any order, where the operations of `ResourceDb` combine them in theirs.
- `SweepRuns.SweepEnds`: is about windows without a READ of the reader, which would put a fresh read in the place of the swept one, and good answers, because a failed one leaves a read as it was.
- A reset that comes through another interface or whose upcall to the XRCE layer fails; it leaves the session resetting too.
- Replacing an existing resource, which the source refuses.
- The check that a creation's parent is of the right kind.
- The limit of 1024 contained entities of a kind that a deletion asks DDS for.
- READ for a stream that does not exist, and the other error returns of a handler before it touches any state.
- Upcalls that fail while the resource table is locked, which detach under a lock already held.
- The mutex of the locator mappings.
- Requests and reader states that an error path leaves with no owner: they are never returned, and nothing more is claimed of them.
- The header bytes of written data.
- `WorkerTheorems.ReadRefusedExactly`: says nothing of a READ that first waits for a cancellation, because what it meets then depends on the workers that come in between.
- `NativeDelete.NativeEntities.DeleteEntity`: has topics among what goes but not in the order of what goes, and leaves their records alone as the source does; of the reader requests that a deletion completes it has only that completing them may fail.
- `ClientSessions.ClientSession.OnMessageGone`: takes the wait for a cancellation as one step; what other workers do meanwhile is the subject of the worker modules.
- `ClientSessions.ClientSession.DismissForwards`: takes its waits as single steps, as above.
- `ClientSessions.ClientSession.CancelRead`: does not let go of the session while the semaphore is awaited, as above.
- `ClientSessions.ClientSession.SweepCompletedReads`: takes its waits as single steps, as above.
- `Sweep.SweepOneExactly`: is about a sweep whose outstanding loans clock and resource table can answer for, because a failed answer leaves a read as it was.
- `Sweep.SweepLeavesNone`: is about a sweep by itself, with all reads open and all answers good; `SweepRuns.SweepEnds` has the other workers.
- `Locks.NoCircle`: is about locks alone, because what a worker that awaits a semaphore waits for is decided by event generators that are not part of this model.
- `Requests.ReturnedOnceAnsweredOnce`: tells requests apart by allocation, so it does not speak of what a handler reads of a buffer that it handed over and that was allocated anew.
- `Mappings.OpenedLeadsToKey`: takes the decision to cache and the opening of the session as one step, so a session opened from the same locator in between is not modelled.
