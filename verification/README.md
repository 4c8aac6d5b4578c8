# Peen's agent core, in Dafny

A model of the parts of `internal/pkg/agent` where correctness depends on many functions working
together, and proofs about it. Five components, each a few modules:

- **Child inbox** (`Inbox`, `InboxRecovery`, `InboxProtocol`, `InboxRanks`, `InboxSteps`, `InboxTheorems`,
  `InboxReports`, `InboxHistories`, `InboxClear`, `InboxConversations`, `InboxExamples`,
  `AgentInboxObject`). Messages are accepted, queued, taken by a round, written to the transcript and
  acknowledged; a crash may fall between any two of these, and a restore rebuilds the queue from the
  event log and the transcript by greedy matching.
- **Gates, callback scopes, directory hops** (`ReadWriteLock`, `Gates`, `CallbackScopes`,
  `CallbackHistories`, `CallbackRetirements`, `DirectoryTools`, `DirectoryHistories`). Reader/writer gates with cancellation; a revision-fenced scope that is drained and
  replaced; a directory change staged by a tool call and published or discarded under the gate.
- **Compaction** (`Reconstruction`, `SummaryChain`, `CompactionRuns`, `CompactionTheorems`,
  `CompactionTranscripts`, `CompactionInterrupts`, `Compactor`). A plan maps prompt messages to stored rows, a search picks a prefix
  and a summary room, the transcript is rewritten, and a row superseding the previous one is stored if the
  store's own checks take it; a stopped process leaves its rows marked incomplete.
- **Event window and phase delivery** (`EventWindow`, `EventBufferObject`, `PhaseDelivery`).
- **Exact costs, budgets, the run registry** (`Arithmetic`, `Rationals`, `DecimalDenominators`,
  `CostDecimals`, `Pricing`, `RoundBudget`, `Registry`).

`Options`, `Conversation` and `FiniteSets` hold what several of them share.

Code that changes objects is a class with those fields; its methods are proved against specification
functions or against the steps of a step system, and the theorems are about those. Concurrency is a
step system: one step per critical section, any interleaving. A run is a datatype (a start, or a run
with one more step; for the gates, a sequence of states), and the main results hold for every run. Where a
state could agree with itself and still be wrong, the `...Histories` and `CompactionTranscripts` modules
say what it must be from the steps taken alone. `dafny verify dfyconfig.toml` covers it all.

## What turned out not to hold as promised

Six promises fail in a corner. The code is modelled as it is; each has a concrete input and the
exact condition.

- *A restore queues exactly the accepted messages that are missing from the transcript.* After every history
  whose log can be read back it loses nothing and keeps the order of acceptance
  (`InboxTheorems.RestoreLosesNothing`), but it queues
  a written message again when an earlier acceptance of the same text, reported undelivered and never
  written, takes its row (`InboxExamples.SameTextIsRestoredAgain`). The exact condition is read off the
  event log and the transcript. Take a text with R rows and D acceptances confirmed as delivered: none of
  its first R - D open acceptances may have R or more acceptances of that text before it
  (`InboxClear.Clear`). With exact counts, all restores of a history are exact if and only if each of them
  finds this (`InboxClear.RestoresAreExactIffAllClear`). It always holds without an undelivered report
  (`InboxTheorems.NoReportNoTheft`). Once a restore did queue a written message again, no condition on log
  and transcript can tell: two histories end in the same log and the same rows, and the same restore is
  right in one and wrong in the other (`InboxExamples.TheftHidesWhatIsWritten`).
- *An accepted message is never lost.* A checkpoint that counts too many messages and fails after some
  acknowledgements leaves messages both acknowledged and in the queue. The close that follows reports them
  undelivered, the log then holds an acknowledgement that matches nothing, and no restore ever reads it
  again: a message accepted before the close, not written and not acknowledged, is gone
  (`InboxExamples.FailedCheckpointStrandsMessage`). A close keeps the log readable through all its reports
  if and only if no more messages are acknowledged than rounds have taken, or the close itself fails
  (`InboxReports.ReadableAfterCloseIffInRange`). Without a repeated conversation the log can always be read
  (`InboxConversations.ReadableWithoutRepeat`).
- *No message is written to the transcript twice.* True in every history without such a restore
  (`InboxTheorems.WrittenInOrderAtMostOnce`); after one, the next round writes the message again
  (`InboxTheorems.TheftWritesTwice`, for any text `InboxExamples.SameTextIsWrittenTwice`).
- *The number of messages a round took is read off the end of the conversation.* The count is right if
  and only if the conversation before the block does not already end like the front of the inbox
  (`Inbox.CountIsExactUnlessRepeated`); over whole histories, all counts are right if and only if no
  recorded conversation repeats the inbox (`InboxConversations.ExactIffNoRepeat`). A count that is too
  high leaves the queue longer than the pending messages, and then `close` slices with a negative index
  and fails; the recovery that closes again fails the same way (`InboxExamples.RepeatedTextBreaksClose`).
  When each block follows a non-user message, every message is accounted for and `close` stays in range
  (`InboxConversations.AnsweredRunsAccountForEveryMessage`).
- *An ordinary tool call sees one directory from bind to finish.* A failing post-run injection finishes
  a call twice, so a second call with the same provider id can lose its hold. For any calls, isolation over
  every interleaving holds if and only if there are no two calls with one id and a third call of the
  other kind than the second (`DirectoryTools.IsolatedExactlyWhenUnmixed`). Inside one engine run the ids of
  overlapping calls differ: the engine drops a repeated id and waits for the whole round
  (`vendor/github.com/psyb0t/elelem/engine.go`, lines 503-516 and 896-945). Two calls overlap with one id
  only for a caller that runs two lifecycles under it on one scope, as a durable tool phase attempted
  again beside an earlier attempt would (`internal/pkg/agent/directoryphase.go`, line 9 on).
- *A compaction that selects a prefix and fits the budget is stored.* A child's store counts complete rows
  only, but the plan is built over all of them. In every reachable state a child's commit succeeds if and
  only if no row it covers by itself is incomplete; a session's if and only if one of them is complete
  (`CompactionTheorems.CommitSucceedsIff`). Interrupting a child marks all its rows, and nothing clears the
  mark: a recovered child is never compacted again, whatever it does
  (`CompactionInterrupts.InterruptedChildIsNeverCompacted`, one such child
  `CompactionInterrupts.InterruptedCommitIsRefused`). A refused commit changes nothing.

The cost of merged usage is the sum of the parts' costs plus a surcharge: what the rounds on the other
side of the long-context threshold would cost more at the merged usage's rates. Both are equal if and only
if that surcharge is zero, so always without the tier (`Pricing.MergedCostDiffersBySurcharge`).

## Premises

- Inbox: the clock never goes back, a transcript write is atomic, acceptance ids are fresh. A user row
  that is not a delivery is allowed when its text was not accepted yet or it is older than the acceptance.
- Callback scopes and directory tools use the abstract lock that `Gates` is proved to refine. A callback
  state is quiet when no thread is on its way and the registry holds the current scope's actor, or nothing
  without a current scope.
- Directory tools: the context in force at the start was built before, so no staging builds it again; any
  calls with any ids may overlap. That the engine keeps ids of a round apart and gives
  a batched hop an error handler is not modelled; both only remove interleavings.
- Compaction: between two compactions messages are only appended; rows the run stores are what it
  appended, in order; row sequences increase from one and row ids differ; compaction ids are fresh.
- Event window: stored pages hold events of the log. Costs: rates are what a decimal text can
  stand for, as every text that is read does (`Pricing.ReadPricingIsValid`).
- Round budget: the directory only changes inside a completed round.

## Model

| member | source | states |
|---|---|---|
| Inbox.DeliveredCount | internal/pkg/agent/agentinbox.go:216-228 | the longest front of the pending texts that closes the conversation: it fits, and no longer one does |
| Inbox.DeliveredInboxCount | internal/pkg/agent/agentinbox.go:216-228 | the descending search loop finds that count |
| Inbox.CountIsExactUnlessRepeated | internal/pkg/agent/agentinbox.go:216-228 | for every conversation and inbox, the count equals the number taken if and only if the earlier conversation does not repeat the inbox's front |
| Inbox.CountIsExactAfterAnswer | internal/pkg/agent/agentinbox.go:216-228 | it is exact whenever the block follows a message that is not the user's |
| Inbox.RepeatedTextCountsTwice | internal/pkg/agent/agentinbox.go:216-228 | one accepted text following the same text counts two messages |
| InboxRecovery.MatchingAcceptance | internal/pkg/agent/childrecoveryinbox.go:106-126 | the first unacknowledged acceptance with that text and, if given, that id |
| InboxRecovery.MatchingInboxAcceptance | internal/pkg/agent/childrecoveryinbox.go:106-126 | the loop finds that acceptance, or none |
| InboxRecovery.RecoveredFailureStays | internal/pkg/agent/childrecoveryinbox.go:62-104 | a log with an acknowledgement that matches nothing stays unreadable whatever follows |
| InboxRecovery.RecoveredInboxEntries | internal/pkg/agent/childrecoveryinbox.go:62-104 | folds the log into its acceptances in order, each with whether it was acknowledged, or fails |
| InboxRecovery.MatchingRow | internal/pkg/agent/childrecoveryinbox.go:128-146 | the first unused user row with the text, not older than the acceptance |
| InboxRecovery.MatchInboxCheckpoint | internal/pkg/agent/childrecoveryinbox.go:128-146 | the loop finds that row and marks it used |
| InboxRecovery.QueuedInOrder | internal/pkg/agent/childrecoveryinbox.go:20-60 | what a restore queues is in order of acceptance, without repeats |
| InboxRecovery.RestoreChildInbox | internal/pkg/agent/childrecoveryinbox.go:20-60 | rebuilds texts and ids of exactly the entries left over; fails exactly on an unmatched acknowledgement or on more entries than the capacity, never dropping one |
| InboxRanks.GreedyMatchesByRank | internal/pkg/agent/childrecoveryinbox.go:30-56 | in any reachable transcript the greedy loop matches the n-th acceptance of a text exactly with the n-th row written for that text |
| InboxRanks.RestoredIsWantedOrStolen | internal/pkg/agent/childrecoveryinbox.go:20-60 | an entry is queued again exactly when it is accepted, unacknowledged and unwritten, or when its row went to an earlier equal acceptance |
| InboxRanks.StolenOnlyAfterUndelivered | internal/pkg/agent/childrecoveryinbox.go:20-60 | a row is only taken by an earlier acceptance of the same text that was reported undelivered and never written |
| InboxSteps.StepKeepsInv | internal/pkg/agent/agentinbox.go:63-212 | every accept, take, write, acknowledgement, failure, close, report, crash and restore keeps the invariant tying memory, log and transcript together, whatever the restore queues |
| InboxSteps.StepKeepsExact | internal/pkg/agent/agentinbox.go:108-212 | while counts are exact the queue stays the end of the pending messages and what is acknowledged next was not acknowledged |
| InboxSteps.StepKeepsReadable | internal/pkg/agent/agentinbox.go:63-212 | while the inbox is open its log can be read back, and of the pending messages exactly the first are acknowledged, as many as were stored since the last write |
| InboxTheorems.InvHoldsInEveryRun | internal/pkg/agent/agentinbox.go:63-212 | all three hold after every history |
| InboxTheorems.RestoreLosesNothing | internal/pkg/agent/childrecoveryinbox.go:20-146 | after every history a restore fails exactly when the log cannot be read back or the queue is too small; otherwise queue and pending messages are, with their texts and ids, every accepted message that is neither written nor acknowledged, in order of acceptance, and none that was acknowledged |
| InboxTheorems.NoReportNoTheft | internal/pkg/agent/childrecoveryinbox.go:20-146 | in every history without an undelivered report no row is taken by another acceptance, even with equal texts |
| InboxTheorems.WrittenInOrderAtMostOnce | internal/pkg/agent/agentinbox.go:108-157 | in every history in which no restore queued a written message, no accepted message is written twice and rows follow the order of acceptance |
| InboxTheorems.TheftWritesTwice | internal/pkg/agent/childrecoveryinbox.go:20-60 | from every reachable state in which a row is taken, a restore with room for it, a round and its record write that message a second time |
| InboxTheorems.EveryMessageIsAccountedFor | internal/pkg/agent/agentinbox.go:108-212 | while counts are exact every accepted message is in the transcript, acknowledged, in the queue, or taken by a round that has not recorded it |
| InboxReports.ReadableWhileClosesInRange | internal/pkg/agent/launchagent.go:527-560 | the log of every history whose closes are in range can be read back |
| InboxReports.CloseOutOfRangeBreaksLog | internal/pkg/agent/launchagent.go:527-560 | after a close that is not in range the first stored report makes it unreadable |
| InboxReports.ReadableAfterCloseIffInRange | internal/pkg/agent/agentinbox.go:194-212 | wherever an inbox can be closed, the log stays readable through any reports of that close if and only if no more messages are acknowledged than rounds have taken, or the close fails |
| InboxReports.UnreadableForGood | internal/pkg/agent/childrecoveryinbox.go:62-104 | an unreadable log stays unreadable in every continuation, and after a crash the inbox never comes back |
| InboxHistories.EveryMessageGoesToOneRound | internal/pkg/agent/agentinbox.go:63-104 | in every history what rounds were given since the last restore, followed by the queue, is what the restore queued followed by what was accepted: each message goes to one round, in order |
| InboxHistories.CloseReportsTheUnread | internal/pkg/agent/launchagent.go:527-560 | wherever an inbox is closed, exactly as many messages are reported as are queued, from the first no round has taken on, each once and in order with its id; none when the queue is longer than the pending messages |
| InboxHistories.ReportsAreTheQueue | internal/pkg/agent/agentinbox.go:194-212 | while counts are exact, those are the messages in the queue |
| InboxClear.SettledInEveryRun | internal/pkg/agent/agentinbox.go:108-212 | the log confirms as delivered exactly the messages that were written and acknowledged |
| InboxClear.WrittenIffRowsReach | internal/pkg/agent/childrecoveryinbox.go:20-146 | which open messages are in the transcript can be computed from log and rows alone |
| InboxClear.RestoresAreExactIffAllClear | internal/pkg/agent/childrecoveryinbox.go:20-146 | with exact counts, all restores of a history queue exactly the missing messages if and only if each met the condition on log and transcript |
| InboxClear.RestoreIsExactIffClear | internal/pkg/agent/childrecoveryinbox.go:20-146 | the next restore is exact if and only if log and transcript meet that condition now |
| InboxClear.ClearRestoresWriteAtMostOnce | internal/pkg/agent/childrecoveryinbox.go:20-146 | checking that condition before each restore guarantees that no message is written twice |
| InboxConversations.ExactIffNoRepeat | internal/pkg/agent/agentinbox.go:108-157 | when each recorded conversation ends with what rounds took, all counts are right if and only if none of them repeats the inbox before that |
| InboxConversations.ConversationsAccountForEveryMessage | internal/pkg/agent/agentinbox.go:108-212 | in those histories every accepted message is accounted for and close never reaches outside the pending messages |
| InboxConversations.ReadableWithoutRepeat | internal/pkg/agent/childrecoveryinbox.go:62-104 | the log of those histories can always be read back |
| InboxConversations.AnsweredRunsAccountForEveryMessage | internal/pkg/agent/agentinbox.go:108-228 | the same whenever each block follows a message that is not the user's |
| InboxExamples.RepeatedTextBreaksClose | internal/pkg/agent/agentinbox.go:194-228 | for any text, a history that counts one message too many and ends with a queue longer than the pending messages, on which close fails |
| InboxExamples.FailedCheckpointStrandsMessage | internal/pkg/agent/agentinbox.go:108-212 | for any texts, a history after which no restore ever succeeds, with a message accepted and neither written nor acknowledged |
| InboxExamples.SameTextIsRestoredAgain | internal/pkg/agent/childrecoveryinbox.go:20-60 | for any text, a history after which log and transcript are not clear and a restore queues a message that is already in the transcript |
| InboxExamples.SameTextIsWrittenTwice | internal/pkg/agent/childrecoveryinbox.go:20-60 | and one in which that message ends up in the transcript twice |
| InboxExamples.TheftHidesWhatIsWritten | internal/pkg/agent/childrecoveryinbox.go:20-146 | two histories with the same log and the same rows, in one of which the restore is exact and in the other not |
| AgentInboxObject.CheckpointIsAHistory | internal/pkg/agent/agentinbox.go:108-157 | whichever of its writes is the first to fail, a checkpoint is a stretch of a protocol history |
| AgentInboxObject.AgentInbox.constructor | internal/pkg/agent/agentinbox.go:46-58 | a new inbox is the protocol's initial state |
| AgentInboxObject.AgentInbox.Deliver | internal/pkg/agent/agentinbox.go:63-104 | refuses when closed, full or not recorded and then changes nothing; otherwise it is the accept step and wakes waiters |
| AgentInboxObject.AgentInbox.CheckpointDelivered | internal/pkg/agent/agentinbox.go:108-157 | writes rows, then one acknowledgement each, then drops them; with a failure at any write it leaves the state that write order implies |
| AgentInboxObject.AgentInbox.Drain | internal/pkg/agent/agentinbox.go:24-45 | a round is given the whole queue, the queue is empty, and pending messages, log and transcript are as they were |
| AgentInboxObject.AgentInbox.Close | internal/pkg/agent/agentinbox.go:194-212 | refuses later messages and returns exactly the accepted messages no round has taken; fails, closed already, exactly when the queue is longer than the pending messages |
| AgentInboxObject.AgentInbox.UnreadAcceptanceIds | internal/pkg/agent/agentinbox.go:167-177 | the ids of those messages, aligned with their texts |
| Gates.StepKeepsCounts | internal/pkg/agent/directorygate.go:20-102 | reader, writer and waiting-writer counts always equal the acquisitions in those phases |
| Gates.StepKeepsWakeups | internal/pkg/agent/directorygate.go:20-102 | a waiter on the still-open channel can never enter |
| Gates.InvHoldsInEveryRun | internal/pkg/agent/rootcallbackgate.go:17-67 | both hold in every interleaving, with and without writer preference, cancellation at any step |
| Gates.WriterExcludesAll | internal/pkg/agent/directorygate.go:68-78 | in every run a writer is inside alone |
| Gates.ReadersYieldToWaitingWriters | internal/pkg/agent/directorygate.go:68-78 | with writer preference no reader enters while a writer waits |
| Gates.EntersExactlyWhenPermitted | internal/pkg/agent/directorygate.go:20-83 | in every run a section that does not see its cancellation enters exactly when, for a writer, nobody is inside, for a reader, no writer is inside or, with writer preference, waiting; otherwise it waits, and a seen cancellation ends it |
| Gates.EnabledWaiterIsAwake | internal/pkg/agent/directorygate.go:80-83 | a waiter that could enter has been woken, and its next try enters |
| Gates.FreeGateAdmitsSomebody | internal/pkg/agent/directorygate.go:20-66 | when nobody is inside and somebody waits, some waiter can enter now |
| Gates.GateRefinesLock | internal/pkg/agent/directorygate.go:20-102 | every run of either gate is a run of the abstract lock, which is always safe |
| Gates.GateObject.Section | internal/pkg/agent/directorygate.go:20-66 | one critical section of acquire does exactly the step's give-up, entry or block |
| Gates.GateObject.Leave | internal/pkg/agent/directorygate.go:85-102 | releasing frees the place and replaces the channel |
| CallbackScopes.SlotIsMutex | internal/pkg/agent/childcallbacks.go:72-94 | at most one thread is between taking and releasing the slot gate |
| CallbackScopes.StepKeepsSlot | internal/pkg/agent/childcallbacks.go:72-255 | a draining thread always drains what is current |
| CallbackScopes.StepKeepsGates | internal/pkg/agent/childcallbackscope.go:12-98 | drainers hold their scope's gate alone, admitted callbacks hold it in their mode |
| CallbackScopes.StepKeepsActors | internal/pkg/agent/childcallbacks.go:194-223 | actors differ, and the registry's actor belongs to the newest scope or is about to be installed |
| CallbackScopes.NoBodyWhileRegistering | internal/pkg/agent/childcallbacks.go:131-192 | no callback body runs when a new actor takes over the registry |
| CallbackScopes.InvHoldsInEveryRun | internal/pkg/agent/childcallbacks.go:72-255 | the invariant holds in every interleaving of callbacks, replacements, pauses, finishes and submissions with arbitrary revision changes and failures |
| CallbackScopes.BodiesShareOneScope | internal/pkg/agent/childcallbackscope.go:12-80 | two bodies never run under different scopes, and an exclusive body runs alone |
| CallbackScopes.BodyRunsUnderNewestScope | internal/pkg/agent/childcallbackscope.go:53-80 | no body starts or keeps running under a scope whose replacement is installed |
| CallbackScopes.InstallFindsNoBody | internal/pkg/agent/childcallbacks.go:131-192 | installing a scope, as a replacement or for a submitted run, finds every earlier body finished |
| CallbackScopes.BodyWasFenced | internal/pkg/agent/childcallbackscope.go:53-80 | when a body runs, its thread saw the scope's own revision and has held the scope's gate ever since |
| CallbackScopes.RetiredIsNotCurrent | internal/pkg/agent/childcallbackfinish.go:59-107 | a finish drains what is current, leaves nothing current and frees the slot |
| CallbackScopes.NothingOutlivesTheThreads | internal/pkg/agent/childcallbackscope.go:12-98 | when every thread is done, neither the slot nor any scope's gate is held |
| CallbackHistories.InstalledAtItsRevision | internal/pkg/agent/childcallbacks.go:131-192 | an installed scope has the durable revision at which its thread began to drain and rechecked, read off the steps |
| CallbackHistories.AdoptedAtItsRevision | internal/pkg/agent/childsubmission.go:233-277 | a scope for a submitted run has the revision the submission read |
| CallbackHistories.EveryScopeHasItsRevision | internal/pkg/agent/childcallbacks.go:131-192 | in every run every scope, current or replaced, has the revision it was built at |
| CallbackHistories.BodyRunsAtBuiltRevision | internal/pkg/agent/childcallbackscope.go:53-80 | a body runs only after its thread found callbacks admitted at the durable revision its scope was built at |
| CallbackHistories.BodyRunsAsAsked | internal/pkg/agent/childcallbackscope.go:12-80 | a callback runs in the mode its thread asked for |
| CallbackHistories.InstallerReachesBody | internal/pkg/agent/childcallbacks.go:72-192 | with the revision unchanged since the drain and callbacks admitted, the installing callback can run under the scope it installed |
| CallbackHistories.IdleCallbackReachesBody | internal/pkg/agent/childcallbacks.go:72-192 | in every quiet state an idle thread can run its callback: under the current scope if that was built at the durable revision, else under one built for it |
| CallbackRetirements.OnlyItsRevisionRetires | internal/pkg/agent/childcallbackfinish.go:59-107 | a finish retires only what is current, and only if that was built at the revision the finish had read or the execution was cancelled |
| CallbackRetirements.ItsRevisionRetires | internal/pkg/agent/childcallbackfinish.go:59-107 | in every quiet state a finish that meets this can retire what is current |
| CallbackRetirements.DrainedFindsNoBody | internal/pkg/agent/childcallbacks.go:225-255 | whoever has drained the current scope, for a finish, a pause or a replacement, finds no body running |
| DirectoryTools.StepKeepsInv | internal/pkg/agent/directorytools.go:74-297 | with distinct ids, every step of every lifecycle keeps holds, table and pending context consistent |
| DirectoryTools.OnlyALoneHopMoves | internal/pkg/agent/directorytools.go:262-297 | the context changes only when a hop holding the gate alone publishes what it staged |
| DirectoryHistories.OnlySuccessPublishes | internal/pkg/agent/directorytools.go:262-297 | for any calls, a step publishes for a call only if the last result the call was given is a success; after an error nothing is published for it |
| DirectoryHistories.OnlyASuccessfulHopMoves | internal/pkg/agent/directorytools.go:262-297 | the context changes only when a hop holding the gate alone publishes the context it staged itself, with a success as its last result |
| DirectoryHistories.SuccessfulHopMoves | internal/pkg/agent/directorytools.go:200-297 | a bound hop that stages and succeeds can go on to move the directory to what it staged, a new context, and gives its hold back |
| DirectoryHistories.FailedHopStays | internal/pkg/agent/directorytools.go:200-297 | one that stages and fails leaves the directory alone, and what it staged is dropped |
| DirectoryTools.OrdinaryHoldSeesOneContext | internal/pkg/agent/directorytools.go:74-112 | a call that is no hop sees one context as long as it holds the gate, from before the tool is selected until its release, in every interleaving |
| DirectoryTools.OrdinaryCallSeesOneContext | internal/pkg/agent/directorytools.go:200-260 | in particular from bind to finish |
| DirectoryTools.HoldLastsUntilFinish | internal/pkg/agent/directorytools.go:245-260 | a bound call has its hold in its own mode; a finished one has none |
| DirectoryTools.NothingOutlivesTheCalls | internal/pkg/agent/directorytools.go:245-260 | when all calls have ended nothing is held, registered or pending |
| DirectoryTools.SharedIdReleasesAnother | internal/pkg/agent/directorytools.go:200-260 | a run in which one call's second finish releases another call's hold |
| DirectoryTools.LostHoldSeesAnotherHop | internal/pkg/agent/directorytools.go:200-297 | an ordinary call that lost its hold sees another call's hop |
| DirectoryTools.LostHoldHopsUnderAnother | internal/pkg/agent/directorytools.go:200-297 | a hop that loses its hold between reading what it staged and publishing it moves the context under an ordinary call |
| DirectoryTools.IsolatedExactlyWhenUnmixed | internal/pkg/agent/directorytools.go:74-297 | for all calls, isolation over every interleaving holds if and only if there are no two calls with one id and a third of the other kind than the second |
| Reconstruction.BuildReconstructionPlan | internal/pkg/agent/reconstruction.go:58-116 | builds the units of session or child rows; fails exactly at the first missing row or unknown role |
| Reconstruction.UnitsPartition | internal/pkg/agent/reconstruction.go:58-116 | the units cut the rows into consecutive pieces with the right ids, sequences, turns and roles, and only the first may start with a tool result |
| Reconstruction.CoverableUnits | internal/pkg/agent/reconstruction.go:201-214 | the units before the newest turn, never all of them |
| Reconstruction.Coverable | internal/pkg/agent/reconstruction.go:201-214 | everything from the count on belongs to the newest turn, the unit before it does not |
| Reconstruction.ChildLeavesLastUnitRaw | internal/pkg/agent/agentruncompaction.go:154-205 | with distinct ids a child plan leaves exactly its last unit raw |
| Reconstruction.CoveringLeavesTheRest | internal/pkg/agent/reconstruction.go:201-222 | covering n units lowers the coverable count by exactly n |
| Reconstruction.VerifyUnitRoles | internal/pkg/agent/reconstruction.go:153-173 | true exactly when every role of the unit matches in place |
| Reconstruction.Verify | internal/pkg/agent/reconstruction.go:123-151 | accepts exactly the transcripts in which every unit fits and matches at its position |
| Reconstruction.AdvanceVerifies | internal/pkg/agent/reconstruction.go:218-222 | a plan that verifies, advanced, verifies against the rewritten transcript |
| Reconstruction.RebuildEqualsAdvance | internal/pkg/agent/agentruncompaction.go:79-109 | rebuilding a plan from the rows after any unit boundary gives the advanced plan's units |
| SummaryChain.DirectRangesCover | internal/pkg/agent/compaction.go:708-743 | a row lies in some direct range exactly when it is covered |
| SummaryChain.DirectRangesAreDisjoint | internal/pkg/agent/compaction.go:708-743 | no row lies in two direct ranges |
| SummaryChain.DirectRangesAreConsecutive | internal/pkg/agent/compaction.go:708-743 | one direct range ends at the row before the next begins |
| SummaryChain.HeadCountsItsRows | internal/pkg/agent/compaction.go:736-741 | the head's range holds exactly the covered rows and its count is their number |
| SummaryChain.QueryFindsLast | cmd/repogen/compaction_querier.go:9-22 | the declarative query returns the newest summary, and nothing else |
| SummaryChain.HistoryAfterHead | internal/pkg/session/agentruntranscript.go:275-307 | the history loaded after the head is exactly the uncovered rows |
| SummaryChain.CompleteRange | internal/pkg/session/agentruncompactionhistory.go:52-60 | the complete rows of a range are all its rows, or fewer exactly when one is incomplete |
| SummaryChain.StoreAcceptsLink | internal/pkg/session/agentruncompactionhistory.go:14-130 | of a summary that links on to the chain, the child store's independent checks accept exactly those that cover no incomplete row |
| SummaryChain.SessionAcceptsLink | internal/pkg/session/transcript.go:323-346 | and the session store exactly those that cover some complete row |
| CompactionRuns.RefreshKeepsInv | internal/pkg/agent/agentruncompaction.go:79-109 | rereading plan and head from the store keeps them aligned with the transcript |
| CompactionRuns.ReloadKeepsInv | internal/pkg/agent/reconstruction.go:227-238 | so does assembling a new turn's prompt from the store |
| CompactionRuns.InterruptKeepsInv | internal/pkg/session/agentruns.go:888-922 | so does an interruption, which marks rows and leaves units, ranges and messages as they are |
| CompactionRuns.CommitKeepsInv | internal/pkg/agent/compaction.go:656-705 | so does a commit: plan, head, transcript and chain move together, or nothing changes when the store refuses |
| CompactionTheorems.StepKeepsInv | internal/pkg/agent/compaction.go:493-705 | every append, store, interruption, refresh, reload and commit keeps the invariant |
| CompactionTheorems.PlanStaysAligned | internal/pkg/agent/compaction.go:656-777 | in every run the plan verifies, and the transcript is the lead, at most one summary and an untouched suffix starting at a unit boundary |
| CompactionTranscripts.TranscriptIsTheConversation | internal/pkg/agent/compaction.go:656-777 | in every run the model is shown the lead last loaded, then, if anything is summarised, a user message with the newest summary's text, then every later message of the conversation as it was stored or appended, in order |
| CompactionTranscripts.CommittedTextIsShown | internal/pkg/agent/compaction.go:656-705 | a commit the store takes makes its text the newest summary and shows it behind the lead |
| CompactionTranscripts.MarkedExactlyByInterrupts | internal/pkg/session/agentruns.go:888-922 | in every run a row is incomplete exactly when it was stored so or an interrupt marked its id |
| CompactionTheorems.SummariesTileHistory | internal/pkg/agent/compaction.go:708-743 | in every run the direct ranges are disjoint and hold exactly the covered rows |
| CompactionTheorems.CurrentSummaryIsNewest | cmd/repogen/compaction_querier.go:9-22 | in every run exactly the newest summary is the current one |
| CompactionTheorems.CurrentSummaryCountsHistory | internal/pkg/agent/compaction.go:736-741 | in every run it spans and counts exactly the covered rows |
| CompactionTheorems.CommitsAreBounded | internal/pkg/agent/compaction.go:695-698 | without a rebuild, commits are at most the drop in coverable units |
| CompactionTheorems.SummariesAreBoundedByHistory | internal/pkg/agent/agentruncompaction.go:60-109 | in every run, with any number of rebuilds, there are at most as many summaries as covered rows, and no more of those than rows |
| CompactionTheorems.SummarizerReadsWhatIsRemoved | internal/pkg/agent/compaction.go:764-799 | the summarizer's input is exactly what the rewrite removes: the old summary and the newly covered rows; all else stays |
| CompactionTheorems.CommitSucceedsIff | internal/pkg/session/agentruncompactionhistory.go:14-130 | in every reachable state the store takes what a commit hands it if and only if, for a child, no row it covers by itself is incomplete, for a session, one is complete |
| CompactionInterrupts.CompleteHistoryIsAccepted | internal/pkg/session/agentruncompactionhistory.go:14-130 | with a complete history every commit succeeds |
| CompactionInterrupts.StuckChildIsNeverCompacted | internal/pkg/agent/agentruncompaction.go:79-109 | once the oldest uncovered row of a child is incomplete, no summary is stored in any continuation, through any reloads and attempts |
| CompactionInterrupts.InterruptedChildIsNeverCompacted | internal/pkg/session/agentruns.go:888-922 | interrupting a child that stored anything has that effect |
| CompactionInterrupts.InterruptedCommitIsRefused | internal/pkg/session/agentruncompactionhistory.go:102-112 | for any texts, a child whose commit is accepted before an interruption and refused after its reload |
| CompactionTheorems.ToolPairingIsPreserved | internal/pkg/agent/reconstruction.go:11-33 | if every result contiguously follows its call in the conversation, so it does after any compactions |
| Compactor.SummaryRooms | internal/pkg/agent/compaction.go:640-650 | the configured room and its halves while they leave the minimum, and no other |
| Compactor.RoomIsQuotient | internal/pkg/agent/compaction.go:640-650 | room i is the configured room divided by two to the i, rounded down |
| Compactor.UnavailableMeansNothingFits | internal/pkg/agent/compaction.go:592-636 | with all counts available the search gives up exactly when no prefix fits any room |
| Compactor.SelectedIsLargestRoomSmallestPrefix | internal/pkg/agent/compaction.go:592-636 | for any counter, what is selected is the largest room any prefix fits and the smallest prefix that fits it |
| Compactor.SelectionIsUnique | internal/pkg/agent/compaction.go:592-636 | the naive reading determines the result, a selection or either failure |
| Compactor.Compactor.TryRoom | internal/pkg/agent/compaction.go:611-627 | the smallest prefix that fits one room, counting only what was not counted before |
| Compactor.Compactor.SelectPrefix | internal/pkg/agent/compaction.go:592-636 | the memoised search gives the naive result, counts each candidate at most once and puts the transcript back on every path |
| Compactor.Compactor.Commit | internal/pkg/agent/compaction.go:656-705 | puts a user message with the summary's text where the covered messages and the old summary stood and keeps every other message, with row, head and plan; or on a failed recount, an over-budget recount or a failed store leaves everything as it was |
| Compactor.Compactor.Handle | internal/pkg/agent/compaction.go:340-429 | succeeds only with a verified plan, the selected prefix and a recount within budget; every failure leaves transcript and chain untouched |
| Compactor.InstalledIsCommitStep | internal/pkg/agent/compaction.go:656-705 | a commit the object makes or takes back is the commit step of the run theorems |
| EventWindow.WindowIsLongest | internal/pkg/agent/agentrun.go:206-218 | the window is the longest suffix of the log within both bounds, or just the newest event |
| EventWindow.StartAppend | internal/pkg/agent/agentrun.go:242-249 | evicting after each append reaches the same window as evicting once from the whole log |
| EventWindow.WindowNeedsOnlyTail | internal/pkg/agent/childphaseevents.go:25-28 | the window never reaches further back than the last maxCount events |
| EventWindow.SuffixHasSameWindow | internal/pkg/agent/childphaseevents.go:25-59 | a log cut no deeper than its window starts has the same window |
| EventWindow.ReaderSeesLogInOrder | internal/pkg/agent/agentrun.go:292-316 | over any reads interleaved with growth a reader gets log events in order, none twice, and its cursor grows by what it got and what was dropped |
| EventWindow.ReadTakesWhatIsLeft | internal/pkg/agent/agentrun.go:292-316 | a read takes all retained events from its cursor on, or as many of them as it asks for, and loses nothing that is retained |
| EventWindow.RetainedIsNeverMissed | internal/pkg/agent/agentrun.go:292-316 | over any reads interleaved with growth a reader was given every event before its cursor that is still retained |
| EventBufferObject.EventBuffer.Evict | internal/pkg/agent/agentrun.go:245-249 | the eviction loop leaves exactly the window, with an exact byte count |
| EventBufferObject.EventBuffer.Append | internal/pkg/agent/agentrun.go:226-252 | numbers the event, extends the log and keeps the window |
| EventBufferObject.EventBuffer.AppendStored | internal/pkg/agent/agentrun.go:256-279 | ignores what is not newer, else extends the log and keeps the window |
| EventBufferObject.EventBuffer.Read | internal/pkg/agent/agentrun.go:292-316 | the slice of the log from the cursor on, all of it or as many events as asked for, the cursor to resume from and the number lost; for a log with gaps the slice of the retained events by position |
| EventBufferObject.EventBuffer.ReplaceStoredWindow | internal/pkg/agent/childphaseevents.go:66-78 | takes a rebuilt window over unless it is behind; the total never goes back |
| EventBufferObject.Rebuild | internal/pkg/agent/childphaseevents.go:25-59 | over any pages the fresh buffer stands for exactly the log from the start cursor to the count, or the read fails |
| EventBufferObject.RefreshChildPhaseEvents | internal/pkg/agent/childphaseevents.go:11-64 | terminates for any pages; on success the buffer equals a replay of the log from its first event; on failure nothing changed; a store that pages its log never makes it fail |
| PhaseDelivery.MatchPage | internal/pkg/agent/childphaseprojection.go:96-117 | fails exactly on a stored event that differs from the wanted one, else matches exactly the wanted ids on the page |
| PhaseDelivery.ReadChildPhaseEvents | internal/pkg/agent/childphaseprojection.go:49-94 | returns exactly the wanted events in the phase's order, each with its input's id, as its input unless a later one has that id, and read from a page, or fails; a store that holds them all never makes it fail |
| PhaseDelivery.AttemptExtendsPrefix | internal/pkg/agent/childphaseprojection.go:133-147 | one attempt extends what was published within the phase's order and succeeds exactly when all is published |
| PhaseDelivery.AttemptsPublishPrefix | internal/pkg/agent/childphaseprojection.go:119-150 | after any attempts failing anywhere, the published events are a prefix of the phase's order without repeats |
| PhaseDelivery.AttemptStopsAtFirstRefusal | internal/pkg/agent/childphaseprojection.go:133-147 | one attempt publishes exactly the missing events before the first the sink does not take, and succeeds exactly when it takes them all |
| PhaseDelivery.WillingSinkGetsAll | internal/pkg/agent/childphaseprojection.go:119-150 | after any attempts of which one found a willing sink, every event of the phase is out |
| PhaseDelivery.Scope.Deliver | internal/pkg/agent/childphaseprojection.go:119-150 | one attempt on the counters: it publishes exactly up to the first event the sink does not take and says whether that was all, leaving other phases alone; nothing without a refresh |
| Rationals.AddIsSum | internal/pkg/agent/modelaudit.go:784-786 | a sum is in lowest terms and has the value of the sum |
| Rationals.ScaleIsProduct | internal/pkg/agent/modelaudit.go:900-906 | tokens times a rate is in lowest terms and has the value of the product |
| Rationals.ReducedIsUnique | internal/pkg/agent/modelaudit.go:908-939 | one value has one form in lowest terms |
| DecimalDenominators.ModelCostFactorCount | internal/pkg/agent/modelaudit.go:941-953 | how often the factor divides the value |
| DecimalDenominators.SmoothWhenStripped | internal/pkg/agent/modelaudit.go:908-926 | taking out all twos and fives leaves one exactly for products of twos and fives |
| DecimalDenominators.PrecisionSuffices | internal/pkg/agent/modelaudit.go:928-931 | with the larger of the two factor counts as precision the denominator divides the power of ten |
| DecimalDenominators.FiniteDecimalIffSmooth | internal/pkg/agent/modelaudit.go:908-926 | a value in lowest terms is a finite decimal if and only if its denominator is a product of twos and fives |
| CostDecimals.ModelCostRatString | internal/pkg/agent/modelaudit.go:908-939 | the loops print exactly the specified text, or fail |
| CostDecimals.TrimKeepsValue | internal/pkg/agent/modelaudit.go:933-938 | trimming zeros and the point never changes what the text stands for |
| CostDecimals.PrintParseRoundTrip | internal/pkg/agent/modelaudit.go:908-939 | every value over twos and fives is printed, and reading the text gives it back |
| CostDecimals.PrintFailsOnlyOffDecimals | internal/pkg/agent/modelaudit.go:921-926 | printing fails exactly for values that are no finite decimal |
| CostDecimals.ParsedIsPrintable | internal/pkg/agent/modelaudit.go:885-898 | whatever decimal text is read can be printed |
| CostDecimals.SumIsPrintable | internal/pkg/agent/modelaudit.go:766-794 | sums of printable amounts are printable |
| Pricing.ReadPricingIsValid | internal/pkg/agent/modelaudit.go:885-898 | whatever texts a price table is configured with, its rates are numbers that print exactly, or none |
| Pricing.InputClassesPartitionPrompt | internal/pkg/agent/modelaudit.go:830-832 | the four priced input classes add up to the prompt if and only if the cache counts fit in it |
| Pricing.WithoutCacheRatesPromptIsFlat | internal/pkg/agent/modelaudit.go:843-883 | a model without cache rates pays one input rate for the whole prompt, the tier's above the threshold if it has one |
| Pricing.FirstRateIsFirst | internal/pkg/agent/modelaudit.go:851-873 | the rate taken from a list of fallbacks is, by index, the first that is not zero, or the last |
| Pricing.RatesAreFirstOffers | internal/pkg/agent/modelaudit.go:843-883 | for every table and round, each class pays the first rate that is not zero among its own rate, for long-lived writes the ordinary write rate, the tier's rate above the threshold, and the plain one |
| Pricing.RoundCostIsClasses | internal/pkg/agent/modelaudit.go:799-883 | for every table and round the cost is the sum over the five classes of their tokens at that rate |
| Pricing.ModelUsageCostAmount | internal/pkg/agent/modelaudit.go:799-841 | the printed amount is worth exactly the sum of the five classes at the first rate the table offers each; it fails exactly when one of those rates is no number, never as "not a finite decimal" |
| Pricing.SumModelCostAmounts | internal/pkg/agent/modelaudit.go:766-794 | worth exactly the sum of the non-empty amounts, empty when there are none, failing exactly on an amount that is no number |
| Pricing.ModelAuditCosts | internal/pkg/agent/modelaudit.go:698-756 | billed is exactly response plus all failed attempts; unknown pricing gives no amounts; fails exactly when some rate used is no number |
| Pricing.UnknownPricingCostsNothing | internal/pkg/agent/modelaudit.go:758-764 | pricing is only taken as unknown when every round would cost nothing |
| Pricing.SameRatesCostIsSum | internal/pkg/agent/directorycontinuation.go:161-184 | rounds that pay the same rates as their merged usage cost together what the merged usage costs |
| Pricing.MergedCostIsSum | internal/pkg/agent/modelaudit.go:799-883 | without a long-context tier that holds for every sequence of rounds |
| Pricing.MergedCostDiffersBySurcharge | internal/pkg/agent/modelaudit.go:799-883 | for every price table and any rounds, merged usage costs the sum plus the surcharge of the rounds on the other side of the threshold, and equals the sum if and only if that is zero |
| Pricing.TierCostIsNotSum | internal/pkg/agent/modelaudit.go:848-859 | a price table with which any two rounds below the threshold cost half of what they cost merged above it |
| RoundBudget.DirectoryScope.BeforeRound | internal/pkg/agent/directorycontinuation.go:14-27 | stops exactly when the directory moved, else shows the round's number and the whole budget |
| RoundBudget.DirectoryScope.Advance | internal/pkg/agent/directorycontinuation.go:126-142 | rebuilds for the current directory and leaves exactly the rounds not completed, if any |
| RoundBudget.DirectoryScope.Segment | internal/pkg/agent/directorycontinuation.go:64-80 | one request up to its limit or to the first round after a move |
| RoundBudget.DirectoryScope.Run | internal/pkg/agent/directorycontinuation.go:40-101 | for every script of rounds the run terminates, ends as it would without any move, with the first round that fails or is final, uses every round number once and in order within the budget, and reports the summed usage |
| RoundBudget.NumbersAre | internal/pkg/agent/directorycontinuation.go:22-24 | the round numbers used are consecutive and distinct |
| RoundBudget.EndIsUninterrupted | internal/pkg/agent/directorycontinuation.go:40-101 | by index: the run without moves ends with the first round that fails or is final, or else with the budget used up, and in no other way |
| RoundBudget.RunPrepared | internal/pkg/agent/childrecoveryprompt.go:27-45 | a recovered run fails exactly when nothing is left of the budget; else, together with the rounds completed before the break, it ends as one unbroken run would, with the same numbers and usage |
| Registry.Sweep | internal/pkg/agent/agentrun.go:683-696 | one pass in any order adds only descendants, and adds nothing only when the set is closed |
| Registry.Descendants | internal/pkg/agent/agentrun.go:673-699 | terminates for every iteration order with exactly the runs whose chain of parents reaches the root, without the root |
| Registry.AgentRunRegistry.RunningCount | internal/pkg/agent/agentrun.go:579-590 | counts exactly the running, unpaused runs in any order |
| Registry.AgentRunRegistry.Start | internal/pkg/agent/agentrun.go:493-567 | fails exactly at the cap, on a taken id or when not persisted; a started run is active and the cap holds |
| Registry.AgentRunRegistry.Finish | internal/pkg/agent/agentrun.go:789-807 | the run has ended, its place among the active runs is free and no other changes; an object the registry no longer holds changes nothing in it |
| Registry.AgentRunRegistry.SignalCancel | internal/pkg/agent/agentrun.go:638-646 | fires a run's cancellation once; only the call that fired it says so |
| Registry.AgentRunRegistry.CancelMatching | internal/pkg/agent/agentrun.go:701-717 | tells every matching running run and no other, so that no matching run goes on untold, counts exactly those it told, and no run is ever told twice |
| Registry.AgentRunRegistry.Cancel | internal/pkg/agent/agentrun.go:620-634 | tells a running run to stop, leaves an ended one alone, and reports unknown ids |
| Registry.AgentRunRegistry.Pause | internal/pkg/agent/childcallbacks.go:225-255 | the run is paused and no longer counts; other runs are unchanged |
| Registry.AgentRunRegistry.Install | internal/pkg/agent/childcallbacks.go:194-223 | replaces only the previous scope's run or an absent one, fails exactly when the others already fill the cap, and keeps the cap |

## Left out

- Compactor.Compactor.Handle: the drop-oldest fallback when no prefix can be summarised belongs to the model library and breaks the premise of the compaction theorems; `Handle` reports that nothing can be summarised there and leaves the transcript alone.
- The summarizer call, its retry and length instructions, lifecycle hooks, audit and metrics: only what they answer matters here.
- The fixed opening line of a summary message: a summary is its text.
- Trimming white space off the model's summary: the text is taken as trimmed.
- The workflow inbox and workflow compaction paths: the same protocols over other stores.
- `harnessSourceChanges`, prompt templates, tool schemas, JSON, logging: text plumbing.
- `findChildTerminalEvent`, `projectChildTerminalRun`: short searches and field updates.
- Callback scopes and directory tools are modelled on values as step systems: updates of the slot map, of scope fields and of the `calls` and `results` tables in place, and aliasing between them, are not captured.
- Directory contexts published by callers other than a tool call (replayed phases): the directory isolation theorems are about tool lifecycles.
- CostDecimals.ParsedIsPrintable: rational text in fraction or exponent notation is not read; `CostDecimals.Parse` reads sign, digits and point only, which is all that is ever printed.
- 64-bit overflow of token counts, sequences and byte lengths: integers are unbounded.
- Retry statistics, model name and finish reason in merged usage: only the token counts that are priced.
- Cancelling the context of a callback scope that is replaced or retired: no step of the model waits for it.
- Deadlines and cancellation of a run between rounds: a cancelled round is a failing round.
- AgentInboxObject.AgentInbox.Drain: the queue belongs to the model library; taking it all at once is what a round does with it.
- PhaseDelivery.ReadChildPhaseEvents: which of its three errors is returned is not stated.
- Registry.AgentRunRegistry.CancelMatching: modelled as one sweep; concurrent sweeps interleave as sequences of `SignalCancel`, each of which keeps the invariant.
