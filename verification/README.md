# GraphNode core services: a verified model

This project models, in Dafny, the parts of the GraphNode backend where several operations share
state, and proves what the services promise about them on every input, run and interleaving.
`dafny verify dfyconfig.toml` checks all of it.

| area | files |
|---|---|
| Macro-graph clean-up migration | `MacroGraph.dfy`, `MigrationProofs.dfy`, `MigrationPrediction.dfy`, `Migration.dfy` |
| Credit ledger, credit service, hold-then-enqueue | `CreditLedger.dfy`, `CreditAccounting.dfy`, `CreditOffsets.dfy`, `CreditService.dfy`, `EnqueueSaga.dfy` |
| Chat context window, summaries, charge-then-refund | `ContextWindow.dfy`, `ChatRuns.dfy`, `PairedRuns.dfy`, `ChargeSaga.dfy` |
| Graph editor | `RelationType.dfy`, `GraphEditing.dfy`, `GraphEditingProofs.dfy`, `GraphEditor.dfy` |
| Bulk create and delete, paging, grouping | `BulkChats.dfy`, `ChatPaging.dfy`, `ChatManagement.dfy` |
| Streamed tool calls, AI export, daily limit | `ToolLoop.dfy`, `AiExport.dfy`, `DailyUsage.dfy` |
| Shared | `Options.dfy`, `Sets.dfy`, `Subsequences.dfy` |

How it is built:

- What the services do step by step are classes and methods with loops; each is proved against a function
  on values (`Exec`, `Effect`, `Next`, `Cleaned`, ...), and the results about runs are lemmas on those functions.
- Databases, queues and model providers are abstract steps that finally succeed or finally fail. Which of them
  fails, what a stream delivers and what the clock, the id generators and the summary call answer are parameters.
  A transaction is all-or-nothing.
- Credit requests of other users and of the same user run between a service's check and the repository's guarded
  update, during a model call, and during a rollback: the parameters `others`, `before`, `during`, `after` and `late`
  are any sequences of atomic repository calls.
- Costs are any amount from 0 on; prices are not part of this model.

Results that are findings about the code rather than confirmations:

- The migration's dry run predicts the apply run, record by record and however equal sort keys are ordered, exactly
  when the tied top clusters of a node agree on each of its memberships, every cluster some node may keep is one that
  some node must keep, and no subcluster with several parents has attached members that can keep all of them
  (`PredictionIsExactIff`). One parent per subcluster and no tie at the top is enough (`PlainGraphsArePredictable`).
  Ids without a numeric second part (the editor gives new clusters a UUID) have no rank and tie.
- After a refill, a hold placed before it can still be committed, so `balance` and `holdAmount` can both fall below
  zero (`LateCommitOverdraws`): the hold counter exactly when the earlier holds settled since the refill exceed the
  open new ones, the balance exactly when what was deducted and committed since, earlier holds included, exceeds the
  grant and the refunds (`NegativeCountersIff`). What is available never does (`AvailableNeverNegative`).
- A balance read that saw the old cycle refills however late it gets to it: credit spent in a cycle that another read
  started meanwhile comes back (`LateRefillForgets`). Alone, a cycle is refilled once (`RefilledOncePerCycle`).
- A chat, RAG chat or retry that gives no answer leaves its user with less credit exactly when the charge went
  through, is not free, and the usage log or the refund cannot be written (stated by `HandleAIChat`, `HandleRagAIChat`
  and `HandleRetryAIChat` on their own faults, new users included). For agent requests there is one more case, in which
  nothing fails: chat mode whose five rounds all ask for tools ends without a result event, an error or a refund
  (`HandleChatStream`, `ExhaustedIff`). Among other requests a refill during the model call turns the refund of a
  failed request into a gain (`CostsAmongOthers`).
- A request whose message was sent is told it failed exactly when the notification after the send fails; its hold then
  stays open, as it must (`RequestGraphGeneration`, `RequestAddNode`).
- A context covers the whole history exactly when no summary was ever stored, or every batch of five turns out of its
  window was summarised with all its answers (`NothingLostIff`, on every run: failed chats, half-saved chats, failed
  retries, RAG chats and imported histories included). Where every question gets its reply that means a summary at
  every batch boundary (`NothingLostOnPairsIff`). Three ways it can fail follow. One failed summary call, or a RAG chat at a
  boundary, which builds no context, loses messages as soon as a later summary succeeds (`AMissedBatchIsLost`). One
  chat whose question is saved and whose reply is not shifts the window by one message, so that a summary is taken
  without the answer to its last turn, although every summary call succeeds (`HalfSavedChatLosesAnAnswer`). And a
  conversation imported with more than five turns out of the window loses its first message with the first summary,
  which takes in the latest five turns only (`ImportedHistoryIsLost`). Without any summary the context has no bound
  (`NoSummaryNoBound`).
- Moving a subcluster keeps the editor's invariant exactly when no active member also sits in an active subcluster
  of a third cluster (`MovingSubclusterKeepsInvIff`).
- The doc comment of `executeBatch` promises a rollback of the whole batch; the code keeps the operations before the
  failing one, as its own inner comment says. The model follows the code (`BatchIsNotAtomic`).
- Five tool rounds in a row end the agent's chat mode without any result event (`ExhaustedIff`).
- The daily-usage port promises an atomic upsert; the Prisma adapter reads the row first and writes it later. With an
  atomic upsert the overshoot is bounded even if dates are stale (`OvershootIsBounded`). With the adapter's two steps
  some run exceeds the bound exactly when three requests may be in flight, or two and the limit is above one
  (`SplitUpsertExceedsBoundIff`); a run does not if no upsert spans midnight (`OvershootIsBoundedWithinDays`).
- Conversations are paged by update time alone. The export for graph generation sends each conversation once exactly
  when no page of fifty ends between two with the same update time (`ExportIsCompleteIff`). A bulk import gives each
  chunk of twenty one update time, so of sixty stored by one import at most fifty are sent (`ImportIsCutShort`).

## Model

| member | source | states |
|---|---|---|
| MigrationProofs.ChoiceForcedIffNoTopTie | src/infra/graph/cypher/macroGraph.cypher.ts:470-481 | The cluster each node keeps is the same for every order of equal sort keys iff no node has two top-ranked clusters |
| MigrationProofs.DedupKeepsTheChoice | src/infra/graph/cypher/macroGraph.cypher.ts:470-481 | Deduplication leaves exactly one BELONGS_TO, to the kept cluster, for every node that had any |
| MigrationProofs.ExcessIsWhatDedupDeletes | src/infra/graph/cypher/macroGraph.cypher.ts:494-501 | The excess reported by the count query is the number of relationships deduplication deletes |
| MigrationProofs.DuplicateNodesAre | src/infra/graph/cypher/macroGraph.cypher.ts:494-501 | The nodes counted as duplicates are those with two BELONGS_TO or more |
| MigrationProofs.IncompatibleIsPredicted | scripts/migrations/migrate-dedup-belongs-to.ts:73-103 | The incompatible memberships predicted on the untouched graph are those of the deduplicated graph |
| MigrationPrediction.SubclusterJudgedIff | scripts/migrations/migrate-dedup-belongs-to.ts:138-184 | For one choice of kept clusters, a subcluster is judged alike before and after pruning iff it does not have several parents, all members attached, and every parent kept by some member |
| MigrationProofs.EmptyClustersArePredicted | scripts/migrations/migrate-dedup-belongs-to.ts:138-184 | The predicted empty clusters are those empty when clusters are removed |
| MigrationPrediction.MembersForcedIff | scripts/migrations/migrate-dedup-belongs-to.ts:73-103 | The predicted incompatible memberships are the same for every order of equal sort keys iff the tied top clusters of each node agree on each of its memberships |
| MigrationPrediction.ClustersForcedIff | scripts/migrations/migrate-dedup-belongs-to.ts:138-184 | The predicted empty clusters are the same for every order iff each cluster that some node may keep is one that some node must keep |
| MigrationPrediction.CoverableIff | scripts/migrations/migrate-dedup-belongs-to.ts:138-184 | Some order lets the members of a subcluster keep all its parents iff there is a different member for each parent, with that parent among its top clusters |
| MigrationPrediction.PredictionIsExactIff | scripts/migrations/migrate-dedup-belongs-to.ts:280-342 | For all orders of equal keys in the dry run and in the apply run the predicted records are the removed ones iff the graph meets the three conditions on ties and parents |
| MigrationPrediction.DryRunPredictsApply | scripts/migrations/migrate-dedup-belongs-to.ts:280-342 | On such a graph every count of the dry run is what the apply run removes |
| MigrationPrediction.MemberCountsExactIff | scripts/migrations/migrate-dedup-belongs-to.ts:73-103 | For all orders of equal keys the two membership counts of the dry run are the numbers removed iff the tied top clusters of each node doom as many of its memberships of each kind |
| MigrationPrediction.PlainGraphsArePredictable | scripts/migrations/migrate-dedup-belongs-to.ts:280-342 | One parent per subcluster and no tie at the top is enough for it |
| MigrationPrediction.TopTieBreaksPrediction | src/infra/graph/cypher/macroGraph.cypher.ts:470-481 | A graph with a tie at the top on which the prediction misses |
| MigrationPrediction.SecondParentBreaksPrediction | scripts/migrations/migrate-dedup-belongs-to.ts:138-184 | A graph with a two-parent subcluster on which the prediction misses |
| MigrationProofs.ReachesNormalForm | scripts/migrations/migrate-dedup-belongs-to.ts:307-318 | Afterwards each node has at most one BELONGS_TO, a top-ranked original one, every membership fits, nothing is empty, and no node lost its last cluster |
| MigrationProofs.NormalFormMeans | scripts/migrations/migrate-dedup-belongs-to.ts:307-318 | The normal form spelled out: one BELONGS_TO a node, every membership in the cluster of its node, a member in every attached subcluster, a node in every cluster |
| MigrationProofs.CleanedIs | scripts/migrations/migrate-dedup-belongs-to.ts:307-318 | Record by record, which relationships, memberships, subclusters and clusters the run leaves |
| MigrationProofs.OrphanedExactlyWhen | src/infra/graph/cypher/macroGraph.cypher.ts:452-456 | A surviving subcluster keeps its cluster iff some node kept that cluster |
| MigrationProofs.NoSubclusterOrphaned | src/infra/graph/cypher/macroGraph.cypher.ts:452-456 | If every member node has a BELONGS_TO, no surviving subcluster loses its cluster |
| MigrationProofs.UnattachedMemberOrphans | src/infra/graph/cypher/macroGraph.cypher.ts:452-456 | A member node without BELONGS_TO can leave a subcluster without its cluster |
| MigrationProofs.NormalFormIsFixed | scripts/migrations/migrate-dedup-belongs-to.ts:280-342 | On any normal form, several parents or not, an apply run deletes nothing and a dry run counts nothing |
| MigrationProofs.SecondRunIsIdle | scripts/migrations/migrate-dedup-belongs-to.ts:280-342 | On any stored graph a second run changes nothing and reports zeros |
| Migration.PickKept | src/infra/graph/cypher/macroGraph.cypher.ts:470-481 | The head of the sorted candidates is a top-ranked one for every node that has any |
| Migration.TakeUpTo | src/infra/graph/cypher/macroGraph.cypher.ts:503-518 | A LIMIT takes some rows, all of them if they are no more than the limit |
| Migration.MacroGraphStore.CountDuplicateBelongsTo | src/infra/graph/cypher/macroGraph.cypher.ts:494-501 | The number of nodes with duplicates and the excess relationships |
| Migration.MacroGraphStore.DeduplicateBelongsTo | src/infra/graph/cypher/macroGraph.cypher.ts:470-481 | Deletes every candidate but one top-ranked one |
| Migration.MacroGraphStore.PruneIncompatibleSubclusterMemberships | src/infra/graph/cypher/macroGraph.cypher.ts:503-518 | Deletes a batch of incompatible memberships and reports it by kind |
| Migration.MacroGraphStore.RemoveEmptyClusters | src/infra/graph/cypher/macroGraph.cypher.ts:452-456 | A cluster survives iff some BELONGS_TO points to it, a subcluster relation iff its cluster does; no node, subcluster, BELONGS_TO or membership is lost |
| Migration.DeleteEmptySubclusters | scripts/migrations/migrate-dedup-belongs-to.ts:186-204 | A subcluster survives iff it has a member or no cluster; no membership or other record is lost, and the answer is the number of subclusters gone |
| Migration.RunPruneBatchLoop | scripts/migrations/migrate-dedup-belongs-to.ts:206-229 | Ends for every choice of batches with no incompatible membership left, totals equal to the initial counts of each kind, and as many batches as pages of the limit |
| Migration.Apply | scripts/migrations/migrate-dedup-belongs-to.ts:303-342 | Leaves the cleaned graph and reports exactly what is gone, per count |
| Migration.StepsDelete | scripts/migrations/migrate-dedup-belongs-to.ts:307-318 | What each deleting step reports is what is missing in the end |
| Migration.DryRun | scripts/migrations/migrate-dedup-belongs-to.ts:280-302 | Changes nothing and reports the predicted counts, each query ordering ties for itself |
| Migration.DryRunThenApply | scripts/migrations/migrate-dedup-belongs-to.ts:280-342 | A dry run followed by an apply run always counts the duplicates alike, the memberships if ties agree on their numbers, everything on a predictable graph, and reaches the normal form |
| Migration.RetryCompletesTheRun | scripts/migrations/migrate-dedup-belongs-to.ts:436-440 | Running again after a failure at any query ends in the graph of an uninterrupted run: of the failed one if it had written anything, of the new one otherwise |
| CreditAccounting.ExecKeepsInv | src/core/ports/ICreditRepository.ts:43-119 | Every repository call keeps available credit non-negative and every hold settled at most once, by its own amount |
| CreditAccounting.RunKeepsInv | src/core/ports/ICreditRepository.ts:43-119 | So does every interleaving of requests |
| CreditAccounting.AvailableNeverNegative | src/core/services/CreditService.ts:47-75 | On every interleaving from an empty database, balance minus holds is never negative for any user |
| CreditAccounting.LateCommitOverdraws | src/core/services/CreditService.ts:256-270 | A run after which balance and held amount are both negative |
| CreditAccounting.SettlingEffect | src/core/ports/ICreditRepository.ts:70-99 | Settling an open hold takes its amount from the hold, and from the balance iff it is a commit, of its own user only |
| CreditAccounting.FirstSettlementWins | src/core/services/CreditService.ts:167-229 | After the first settlement the task stays settled that way on every run, and further commits and rollbacks are no-ops |
| CreditAccounting.EveryRunIsAccounted | src/core/ports/ICreditRepository.ts:43-119 | With unique task ids, the hold counter and available credit are exactly accounted for by the ledger rows since the last refill, earlier holds settled since included |
| CreditAccounting.NegativeCountersIff | src/core/ports/ICreditRepository.ts:43-119 | When the stored hold and balance are below zero, in terms of the ledger rows since the last refill |
| CreditOffsets.OffsetRun | src/core/ports/ICreditRepository.ts:43-119 | A difference in what one user has paid persists through every sequence of calls that are accepted or refused alike, until a refill of that user levels it |
| CreditService.CreditRepository.DeductBalance | src/infra/repositories/CreditRepositoryPrisma.ts:72-120 | Charges iff the row exists and enough is available: the balance falls by the cost, one usage row is written, all else stays; answers what is available afterwards |
| CreditService.CreditRepository.HoldBalance | src/infra/repositories/CreditRepositoryPrisma.ts:128-176 | Holds iff the row exists and enough is available: the hold grows by the cost, one HOLD row with its expiry is written, all else stays |
| CreditService.CreditRepository.CommitHold | src/infra/repositories/CreditRepositoryPrisma.ts:184-258 | The probe before the transaction and the check inside it amount to one atomic commit among other requests: the first HOLD row's amount leaves its user's balance and hold, with one row |
| CreditService.CreditRepository.RollbackHold | src/infra/repositories/CreditRepositoryPrisma.ts:265-334 | The same for a rollback, which leaves the balance |
| CreditService.CreditRepository.RefundBalance | src/infra/repositories/CreditRepositoryPrisma.ts:340-362 | Adds the amount and a ledger row; fails on a missing balance row |
| CreditService.CreditRepository.RefillBalance | src/infra/repositories/CreditRepositoryPrisma.ts:370-404 | Sets balance, hold, plan and cycle end anew, records the difference, and changes nothing else; fails on a missing row |
| CreditService.CreditService.EnsureBalance | src/core/services/CreditService.ts:358-373 | A stored row is left as it is; a fresh one has the FREE plan and limit, nothing on hold, and a cycle of 30 days |
| CreditService.CreditService.Deduct | src/core/services/CreditService.ts:42-89 | With any requests between check and update: which outcome is reported, when the user is charged, and that an Ok has its usage row |
| CreditService.CreditService.Hold | src/core/services/CreditService.ts:103-158 | The same for a hold that expires two hours later |
| CreditService.CreditService.CommitByTaskId | src/core/services/CreditService.ts:167-195 | Commits an open hold once and logs its usage; never throws |
| CreditService.CreditService.RollbackByTaskId | src/core/services/CreditService.ts:204-229 | Releases an open hold once and logs a failed usage of 0 |
| CreditService.CreditService.Refund | src/core/services/CreditService.ts:238-247 | Credits the amount, or changes nothing when the write fails |
| CreditService.CreditService.Refill | src/core/services/CreditService.ts:256-270 | Starts a new cycle of 30 days with the plan and its limit and nothing on hold, or changes nothing |
| CreditService.CreditService.GetBalance | src/core/services/CreditService.ts:294-309 | Refills iff the row as first read was past its cycle's end, with any requests before the refill and before the second read; alone, the new plan, limit and cycle end are stored and reported |
| CreditService.RefilledOncePerCycle | src/core/services/CreditService.ts:294-309 | After a read that refilled, reads at any time up to the new cycle's end leave the ledger as it is |
| CreditService.FreshForOneCycle | src/core/services/CreditService.ts:358-373 | The same after the read that creates the balance row |
| CreditService.LateRefillForgets | src/core/services/CreditService.ts:294-309 | A read that saw the old cycle ends in a full balance whatever was spent before its refill |
| CreditService.CreditService.ExpireStaleHolds | src/core/services/CreditService.ts:314-324 | Whatever others do during the sweep, every due hold is settled afterwards, except where its own rollback failed, and a hold that is not due only if others settle it; if they do nothing, only rollbacks of due holds are written, just their amounts leave the holds, and open holds that are not due stay open |
| EnqueueSaga.GraphGenerationService.RequestGraphGeneration | src/core/services/GraphGenerationService.ts:91-251 | For a fault at any step and any calls of others before the hold, during the request and during its rollback: the request's rows are none, an open hold, or a hold and its rollback; the hold is open iff the message was sent or the rollback failed; when the message is sent (iff), when the caller is told so (iff), and when there is nothing to do (iff) |
| EnqueueSaga.GraphGenerationService.RequestAddNode | src/core/services/GraphGenerationService.ts:473-696 | The same for adding nodes |
| EnqueueSaga.GraphGenerationService.HoldCredit | src/core/services/GraphGenerationService.ts:447-450 | The hold is placed iff the credit suffices when read and still after what others do, and the ledger that results |
| EnqueueSaga.GraphGenerationService.OnError | src/core/services/GraphGenerationService.ts:457-465 | Rolls the placed hold back, whatever others do meanwhile, unless that cannot be written, and throws |
| EnqueueSaga.RollbackCloses | src/core/services/GraphGenerationService.ts:457-465 | The rollback of an open hold always goes through and closes it; without other requests every account is as before the request |
| EnqueueSaga.HoldStays | src/core/services/GraphGenerationService.ts:447-450 | A hold that stays open is the one row of the request; without other requests it has taken just the price from what its user can spend |
| EnqueueSaga.OthersSpareRows | src/core/services/GraphGenerationService.ts:91-251 | Requests that do not know a task id neither add nor remove its ledger rows |
| ContextWindow.AfterTurnsEndsTheTurns | src/core/services/AiInteractionService.ts:208-223 | The index is the only one where the wanted turns have ended |
| ContextWindow.IndexAfterNUserTurns | src/core/services/AiInteractionService.ts:208-223 | The two loops compute that index |
| ContextWindow.WindowIsSent | src/core/services/AiInteractionService.ts:261-305 | Everything is sent while there is no summary, and the last twenty messages always are |
| ContextWindow.ContextLists | src/core/services/AiInteractionService.ts:260-269 | Position by position: the summary if there is one, the history from the start on, verbatim and in order, the current message last, and nothing else |
| ContextWindow.PendingTurns | src/core/services/AiInteractionService.ts:297-303 | With a summary the pending part has exactly the expelled turns modulo five and starts with a question |
| ContextWindow.ContextIsBounded | src/core/services/AiInteractionService.ts:261-305 | An alternating history gives at most thirty messages once a summary exists or while none is due |
| ContextWindow.NoSummaryNoBound | src/core/services/AiInteractionService.ts:297-303 | Without a summary the whole history is sent |
| PairedRuns.UpdatedBatch | src/core/services/AiInteractionService.ts:279-293 | On user and assistant pairs, a new batch is exactly the next five turns |
| ChatRuns.MemoryIsTheVisitedBatches | src/core/services/AiInteractionService.ts:279-293 | On every run the memory consists of the new batches of the contexts at which a summary was due and answered, in order |
| ChatRuns.VisitedStand | src/core/services/AiInteractionService.ts:279-293 | Whatever is half saved, retried or deleted later, those contexts' expelled messages stay the start of the history |
| ChatRuns.CoveredWhen | src/core/services/AiInteractionService.ts:249-306 | A message is in a context iff it stands behind the start of the verbatim part or in the batch of some stored summary |
| ChatRuns.NothingLostIff | src/core/services/AiInteractionService.ts:249-306 | On every run, from a new or an imported conversation, a context covers every earlier message iff no summary was ever stored or every batch out of its window has a summary that lacks no answer the context does not send itself |
| ChatRuns.ImportedHistoryIsLost | src/core/services/AiInteractionService.ts:279-303 | From an imported history with more than five turns out of the window, the first message is in a context iff no summary was stored yet |
| ChatRuns.HalfSavedChatLosesAnAnswer | src/core/services/AiInteractionService.ts:261-303 | A run with one half-saved chat, all summaries succeeding, after which an answer is in no context |
| PairedRuns.NothingLostOnPairsIff | src/core/services/AiInteractionService.ts:249-306 | On runs where every question gets its reply: iff no summary was ever stored or one was stored at every boundary passed |
| PairedRuns.NothingIsLost | src/core/services/AiInteractionService.ts:249-306 | On such runs, if no summary fails nothing is lost, whatever chats failed or were retried |
| PairedRuns.SummarisedPrefix | src/core/services/AiInteractionService.ts:279-293 | On successful chats the batches are consecutive and concatenate to a prefix of the history |
| PairedRuns.AMissedBatchIsLost | src/core/services/AiInteractionService.ts:288-303 | A run with failed summaries, or with RAG chats, in which messages are in no later context |
| ChargeSaga.CostsAmongOthers | src/core/services/AiInteractionService.ts:427-491 | Against the run of the other requests alone: a charged request leaves its user poorer iff its charge stays (an answer, used-up rounds, a lost refund, or a failing usage log) and no refill followed, and richer iff it was refunded after a refill |
| ChargeSaga.DeductChatCredit | src/core/services/AiInteractionService.ts:1019-1025 | Among other requests: charges one cost iff it suffices when read and when updated, and throws after charging iff only the usage log failed |
| ChargeSaga.RefundChatCredit | src/core/services/AiInteractionService.ts:1033-1038 | Gives one cost back, or leaves the charge when the write fails |
| ChargeSaga.AiInteractionService.BuildContextMessages | src/core/services/AiInteractionService.ts:249-306 | The context item by item, the stored summary, and None exactly when a due summary cannot be stored |
| ChargeSaga.AiInteractionService.ChargeAndAnswer | src/core/services/AiInteractionService.ts:427-491 | For every fault and any calls of others before and after the charge: the resulting ledger, with at most one refund at the end, the exact condition of an answer, and the messages saved |
| ChargeSaga.AiInteractionService.HandleAIChat | src/core/services/AiInteractionService.ts:322-494 | For a fault at any step: the resulting ledger, when the user pays without an answer (iff), the context sent, when there is an answer (iff), and the step of the conversation's run that was made, half-saved chats included |
| ChargeSaga.AiInteractionService.HandleRagAIChat | src/core/services/AiInteractionService.ts:513-671 | The same without a context or a summary, both iffs included |
| ChargeSaga.AiInteractionService.AnswerAgain | src/core/services/AiInteractionService.ts:749-838 | The context of a retry, item by item, leaves out the question it repeats and ends with it; a summary may be taken again |
| ChargeSaga.AiInteractionService.HandleRetryAIChat | src/core/services/AiInteractionService.ts:689-839 | An answered retry replaces the last reply; a refused one changes nothing; one that fails later has deleted it; the step of the run that was made; when it is answered and when the user pays for nothing (iff) |
| ChargeSaga.AgentService.HandleChatStream | src/core/services/AgentService.ts:80-190 | For agent requests, chat mode ending as its streams say: irrelevant ones are refunded once, even if reporting then fails; a summary or note hint is the mode unless the request is irrelevant; when a request throws, is rejected or ends out of rounds (iff); when the user pays for nothing (iff) |
| ChargeSaga.RunMode | src/core/services/AgentService.ts:171-182 | A mode ends without an answer and without an error iff it is chat mode and all five rounds ask for tools that can be called |
| RelationType.TrimIs | src/core/services/GraphEditorService.ts:68-76 | Trimming takes all white space off both ends and nothing else |
| RelationType.ChainIsJoinedWords | src/core/services/GraphEditorService.ts:68-76 | The replace chain equals: upper-case, take the maximal runs of A-Z and 0-9, join them by one underscore |
| RelationType.ChainIsCanonical | src/core/services/GraphEditorService.ts:68-76 | Its result has only capitals, digits and single underscores between them |
| RelationType.ScanIsWords | src/core/services/GraphEditorService.ts:68-76 | Scanning one character at a time finds the maximal runs |
| RelationType.AcceptedIff | src/core/services/GraphEditorService.ts:68-84 | A name is accepted iff it has such a run and the joined runs are not reserved |
| RelationType.AcceptedIsFixed | src/core/services/GraphEditorService.ts:68-84 | An accepted name is canonical, not reserved, and a fixed point |
| GraphEditing.NextNodeId | src/core/ports/MacroGraphStore.ts:687 | Above every stored node id, soft-deleted ones included |
| GraphEditing.MaxId | src/infra/graph/cypher/macroGraph.cypher.ts:1648-1651 | The greatest stored id, or 0 |
| GraphEditingProofs.EffectKeepsInv | src/core/services/GraphEditorService.ts:128-793 | Every operation keeps: active nodes in active clusters, edges join two distinct active nodes, members share the subcluster's cluster, references are to stored records, no reserved key or relation type is stored |
| GraphEditingProofs.RunKeepsInv | src/core/services/GraphEditorService.ts:128-793 | So does every sequence of operations |
| GraphEditingProofs.MovingSubclusterKeepsInvIff | src/core/services/GraphEditorService.ts:695-718 | Moving a subcluster keeps them iff no active member also sits in an active subcluster of a third cluster |
| GraphEditingProofs.SharedMemberBreaksInv | src/core/services/GraphEditorService.ts:695-718 | A graph on which the move breaks them |
| GraphEditingProofs.DeletingNodesInduces | src/infra/graph/cypher/macroGraph.cypher.ts:956-1000 | Deleting nodes, softly or for good, leaves the active subgraph induced by the others |
| GraphEditingProofs.CascadeLeavesInducedSubgraph | src/core/services/GraphEditorService.ts:472-508 | Deleting a cluster with its nodes leaves exactly the active subgraph outside it |
| GraphEditingProofs.CreatingIsUndone | src/core/services/GraphEditorService.ts:128-170 | Deleting a new node, edge, cluster or subcluster for good, or leaving a subcluster just joined, gives back the graph before |
| GraphEditingProofs.AcceptedPrefixIs | src/core/services/GraphEditorService.ts:833-853 | The accepted prefix of a batch is the operations before the first rejected one |
| GraphEditingProofs.BatchIsNotAtomic | src/core/services/GraphEditorService.ts:798-810 | A failing batch whose first operation stays |
| GraphEditor.SanitizeProps | src/core/services/GraphEditorService.ts:92-99 | Deleting the reserved keys one by one leaves exactly the other entries |
| GraphEditor.GraphEditorService.CreateNode | src/core/services/GraphEditorService.ts:128-170 | Accepted iff name and cluster id are not blank and the cluster is active; the new id has no record yet, nothing else changes, reserved keys are left out, and the editor's invariant is kept |
| GraphEditor.GraphEditorService.UpdateNode | src/core/services/GraphEditorService.ts:182-209 | Accepted iff the node is active; changes that node's given fields and nothing else, stores no reserved key, and keeps the invariant |
| GraphEditor.GraphEditorService.DeleteNode | src/core/services/GraphEditorService.ts:220-236 | Accepted iff the node is active; it goes from the active graph with its edges and memberships and the invariant is kept; record by record, node and edges are marked, or for good no longer stored nor listed |
| GraphEditor.GraphEditorService.CreateEdge | src/core/services/GraphEditorService.ts:256-302 | Accepted iff the ends are two distinct active nodes and the type is absent or normalises; which error otherwise; one edge is stored and nothing else changes; the invariant is kept, so its type is canonical and free |
| GraphEditor.GraphEditorService.UpdateEdge | src/core/services/GraphEditorService.ts:313-339 | Accepted iff the edge is active and a given type normalises; the ends stay, only given fields change, a refused type leaves the edge as it was, and the invariant is kept |
| GraphEditor.GraphEditorService.DeleteEdge | src/core/services/GraphEditorService.ts:350-368 | Accepted iff the edge is active; it is no longer active, is kept as deleted unless for good, and nothing else changes |
| GraphEditor.GraphEditorService.CreateCluster | src/core/services/GraphEditorService.ts:385-419 | Stored under the trimmed given id, or the generated one if that is blank; conflicts iff a given id is active; otherwise active under the trimmed name, revived if it was deleted, and nothing else changes; the invariant is kept |
| GraphEditor.GraphEditorService.UpdateCluster | src/core/services/GraphEditorService.ts:430-456 | Accepted iff the cluster is active; renames it and changes nothing else |
| GraphEditor.GraphEditorService.DeleteCluster | src/core/services/GraphEditorService.ts:472-508 | Conflicts iff active nodes are in it and the cascade is off; otherwise the active graph outside the cluster is left and the invariant is kept; record by record, cluster, nodes and edges are marked, or for good no longer stored, listed or referred to |
| GraphEditor.DeletingClusterRecords | src/core/services/GraphEditorService.ts:493-505 | What a cascade does to every stored record, softly and for good |
| GraphEditor.GraphEditorService.CreateSubcluster | src/core/services/GraphEditorService.ts:524-563 | Which error when; otherwise stored under the trimmed given id or the generated one, active in an active cluster without members, even if its id is revived, and nothing else changes; the invariant is kept |
| GraphEditor.GraphEditorService.UpdateSubcluster | src/core/services/GraphEditorService.ts:574-599 | Accepted iff the subcluster is active; cluster and members stay, and nothing else changes |
| GraphEditor.GraphEditorService.DeleteSubcluster | src/core/services/GraphEditorService.ts:612-630 | Accepted iff the subcluster is active; it is no longer active, and nodes, edges and clusters stay |
| GraphEditor.GraphEditorService.MoveNodeToCluster | src/core/services/GraphEditorService.ts:649-681 | Accepted iff node and cluster are active; the move and the removals one by one leave the node in exactly its subclusters of the new cluster, and nothing else changes; the invariant is kept |
| GraphEditor.GraphEditorService.LeaveSubclusters | src/core/services/GraphEditorService.ts:668-676 | The removals, in any order |
| GraphEditor.GraphEditorService.MoveSubclusterToCluster | src/core/services/GraphEditorService.ts:695-718 | Accepted iff subcluster and cluster are active; it and exactly its active members change cluster, nothing else changes, and the invariant is kept iff no active member sits in a third cluster's subcluster |
| GraphEditor.GraphEditorService.AddNodeToSubcluster | src/core/services/GraphEditorService.ts:732-762 | Accepted iff both are active and in the same cluster; exactly that node joins, nothing else changes, and the invariant is kept |
| GraphEditor.GraphEditorService.RemoveNodeFromSubcluster | src/core/services/GraphEditorService.ts:775-793 | Accepted iff the subcluster is active; exactly that node leaves, it stays in its cluster, and nothing else changes |
| GraphEditor.GraphEditorService.ExecuteOperation | src/core/services/GraphEditorService.ts:867-887 | Runs the operation of the given kind |
| GraphEditor.GraphEditorService.ExecuteBatch | src/core/services/GraphEditorService.ts:812-858 | The graph of the operations before the first rejected one; success iff all ran, with indices 0 to n-1; 1 to 100 operations |
| GraphEditor.EdgesGoOnce | src/core/services/GraphEditorService.ts:493-499 | Deleting the edges before the nodes makes no difference to the result |
| BulkChats.CommittedAreKept | src/core/services/ChatManagementService.ts:218-222 | Chunks partition the input: chunk by chunk or thread by thread the same threads survive, in the same order |
| BulkChats.KeptInOrder | src/core/services/ChatManagementService.ts:218-222 | The surviving threads are those at the positions of committed chunks, in order |
| BulkChats.CommittedIdsAreGone | src/core/services/ChatManagementService.ts:1074-1078 | The same for the ids of conversations to delete |
| BulkChats.MessagesAreTheNonBlank | src/core/services/ChatManagementService.ts:282-302 | The stored messages are the non-blank ones of the threads and no others |
| BulkChats.ThreadMessagesInOrder | src/core/services/ChatManagementService.ts:282-302 | The stored messages of a thread are its non-blank ones in order, each once |
| BulkChats.DocumentsOf | src/core/services/ChatManagementService.ts:264-302 | A conversation is stored under its thread's id, a message in it with its own content, under its own id or a generated one if that is blank |
| BulkChats.NewAre | src/core/services/ChatManagementService.ts:278-280 | Exactly the threads not marked as stored get a conversation document, in order |
| BulkChats.TitleIsShown | src/core/services/ChatManagementService.ts:243-261 | A title that is not blank is kept; otherwise it is the trimmed first message, cut to ten characters and marked so if longer, or a fixed one; none is blank |
| BulkChats.NothingKeptIff | src/core/services/ChatManagementService.ts:369-370 | Nothing is created iff no chunk commits |
| BulkChats.DeletionLeavesNoOrphans | src/core/services/ChatManagementService.ts:1096-1103 | No message of a deleted conversation is left, and no message loses its conversation |
| BulkChats.WithoutPicks | src/core/services/ChatManagementService.ts:1096-1103 | What is left are the conversations that were not deleted, in order |
| BulkChats.GroupingConserves | src/core/services/ChatManagementService.ts:511-523 | Over distinct conversations the groups hold every message exactly once |
| BulkChats.GroupKeepsOrder | src/core/services/ChatManagementService.ts:511-523 | A group is the subsequence of the message list with its conversation's id |
| ChatManagement.ChatManagementService.PrepareDocs | src/core/services/ChatManagementService.ts:237-308 | The documents of one chunk; threads marked as stored get no conversation document |
| ChatManagement.ChatManagementService.CreateMessageDocs | src/core/services/ChatManagementService.ts:309-319 | Batches of 500 write all messages in order |
| ChatManagement.ChatManagementService.InsertChunks | src/core/services/ChatManagementService.ts:218-354 | Exactly the committed chunks are stored and reported; the failed ones are listed |
| ChatManagement.ChatManagementService.BulkCreateConversations | src/core/services/ChatManagementService.ts:182-420 | For every pattern of failing chunks the store gains and the caller is told exactly the surviving threads, in order; it throws iff there are chunks and none commits |
| ChatManagement.ChatManagementService.DeleteAllConversations | src/core/services/ChatManagementService.ts:1058-1149 | A conversation stays iff its chunk does not commit; those that go take their messages along, and the count is their number; when it throws |
| ChatManagement.ChatManagementService.DeleteChunks | src/core/services/ChatManagementService.ts:1086-1132 | Every committed chunk deletes at least one conversation |
| ChatManagement.ChatManagementService.ListConversations | src/core/services/ChatManagementService.ts:486-525 | For any limit and cursor: the page and next cursor of the query, every conversation with exactly its messages, in order |
| ChatPaging.WalkSeesAllIff | src/infra/repositories/ConversationRepositoryMongo.ts:130-164 | Asking page after page with the cursor given shows the whole list iff no page ends between two conversations with the same update time |
| ChatPaging.WalkKeepsOrder | src/infra/repositories/ConversationRepositoryMongo.ts:130-164 | It never shows a conversation twice and keeps the order |
| ChatPaging.TiedRowsAreSkipped | src/infra/repositories/ConversationRepositoryMongo.ts:139-149 | Conversations behind the first page with the update time of its last are never shown |
| ToolLoop.InterleavingIsIrrelevant | src/core/services/AgentService.ts:262-282 | The assembled calls depend only on the order within each index |
| ToolLoop.ArgumentsAreConcatenated | src/core/services/AgentService.ts:271-279 | A call's arguments are its own fragments' arguments in order |
| ToolLoop.AssembledIsCall | src/core/services/AgentService.ts:262-304 | A call has the last id and the last name its fragments bring, and all their arguments, or an empty object if they bring none |
| ToolLoop.OfIsSubsequence | src/core/services/AgentService.ts:262-279 | A call's fragments are those with its index, each once and in the order they arrived |
| ToolLoop.StreamConcat | src/core/services/AgentService.ts:243-282 | Text and fragments of a stream are those of its parts, one behind the other |
| ToolLoop.ReadStream | src/core/services/AgentService.ts:243-282 | Content and calls are those of the fragments, and the text streamed out is the content |
| ToolLoop.Accumulate | src/core/services/AgentService.ts:262-282 | Filing fragments one by one assembles every call |
| ToolLoop.ToolCalls | src/core/services/AgentService.ts:284-304 | One call per index used, by ascending index, each the call its fragments ask for |
| ToolLoop.SortedIsUsed | src/core/services/AgentService.ts:285-287 | There is one way to list the indices in ascending order |
| ToolLoop.AnswerToolCalls | src/core/services/AgentService.ts:312-324 | One tool message per call, in order, unless some arguments are not JSON; tools may have state |
| ToolLoop.HandleChatMode | src/core/services/AgentService.ts:202-336 | At most five rounds; the messages are the transcript; the text streamed out is that of the responses read; an answer is the text of the first complete response that asks for no tools; when it throws; one result event iff it answers |
| ToolLoop.TranscriptIsMatched | src/core/services/AgentService.ts:306-324 | Every assistant message with calls is followed by exactly one matching tool message per call |
| ToolLoop.TranscriptHolds | src/core/services/AgentService.ts:212-324 | The transcript is the two prompts and every round's message and tool replies, in order and without gaps |
| ToolLoop.AsksForToolsIff | src/core/services/AgentService.ts:295-307 | A round asks for tools iff its stream carried a fragment of one |
| ToolLoop.EndsAtFirst | src/core/services/AgentService.ts:226-336 | The first round that cannot go on ends the loop: with its text if its stream is complete and asks for no tools, with an error otherwise |
| ToolLoop.ExhaustedIff | src/core/services/AgentService.ts:226-336 | No answer and no error iff five rounds in a row asked for tools |
| AiExport.SortIsStable | src/core/services/GraphGenerationService.ts:557-561 | Sorted by time, the same messages, in the given order where times agree |
| AiExport.BuildMapping | src/core/services/GraphGenerationService.ts:564-582 | The loop builds the linked map of the sorted messages |
| AiExport.LinkIsPath | src/core/services/GraphGenerationService.ts:564-582 | Over distinct ids the map is one doubly linked path along the list |
| AiExport.MappingRoundTrips | src/core/services/GraphGenerationService.ts:551-592 | One root, and walking from it gives back all messages in time order iff only the last may have an empty id |
| AiExport.ContentsSurvive | src/core/services/GraphGenerationService.ts:564-582 | Every message is in the map with its content |
| AiExport.StreamUserData | src/core/services/GraphGenerationService.ts:704-764 | The parts are a bracket, the items with commas in between, and a bracket; there is an item for each conversation that asking page after page with the cursor shows, in order: the encoding of its id and of the path along its messages in time order |
| AiExport.ExportIsCompleteIff | src/core/services/GraphGenerationService.ts:704-764 | Every stored conversation is sent, once, iff no page of fifty ends between two with the same update time |
| AiExport.ImportIsCutShort | src/infra/repositories/ConversationRepositoryMongo.ts:74-83 | Of sixty conversations imported at once in chunks of twenty, each with one update time, at most fifty are sent |
| DailyUsage.DailyUsageService.CheckLimit | src/core/services/DailyUsageService.ts:48-63 | Refuses iff today's count has reached the limit |
| DailyUsage.DailyUsageService.IncrementUsage | src/core/services/DailyUsageService.ts:80-87 | One more today; a row of another day starts again at one |
| DailyUsage.DailyUsageService.GetRemainingCount | src/core/services/DailyUsageService.ts:99-108 | What is left of the limit, never below zero |
| DailyUsage.AtomicKeepsBound | src/core/ports/DailyUsageRepository.ts:34-47 | With atomic upserts every step keeps today's count plus the requests that may still count within the bound |
| DailyUsage.OvershootIsBounded | src/core/services/DailyUsageService.ts:48-87 | On every run today's count is at most the limit minus one plus the requests in flight, across day changes and with stale dates |
| DailyUsage.OvershootIsBoundedWithinDays | src/infra/repositories/DailyUsageRepositoryPrisma.ts:43-63 | The same for upserts that read first and write later, if none spans midnight |
| DailyUsage.BoundIsReached | src/core/services/DailyUsageService.ts:48-87 | For every limit and concurrency some run reaches the bound |
| DailyUsage.SplitUpsertExceedsBoundIff | src/infra/repositories/DailyUsageRepositoryPrisma.ts:43-63 | For every limit and number of requests in flight: some run, with or without atomic upserts in it, exceeds the bound iff three may be in flight, or two and the limit is above one |

## Left out

- PredictionIsExactIff: record by record; `MemberCountsExactIff` is its form for the two membership counts, while counts of empty subclusters and clusters that agree although the records differ are not characterised. Each counting query is taken to order a node's ties one way, and every node and cluster to hang off the user's graph root, as every adapter write links it there.
- NothingLostIff: an imported history starts with a question and has no two replies in a row; message records are distinct, as their ids make them; messages written or deleted past the chat requests, and two requests of one conversation at a time, are not modelled.
- HandleRetryAIChat: a conversation whose only message is a reply, which no run reaches, makes no step of a run.
- EveryRunIsAccounted: each task id is held once, as the services mint a new one per request.
- MappingRoundTrips: message ids of one conversation are distinct, as the primary key makes them.
- DeleteAllConversations: conversation ids are distinct, as the primary key makes them, and nobody else writes in the meantime.
- GroupingConserves: lists conversations of one page whose messages were all fetched for them.
- ExportIsCompleteIff: nobody writes conversations between two pages; ListConversations takes the order of the query (newest first, then by id) as given.
- RequestGraphGeneration: a queue send that throws after delivery is not modelled; others do not know the minted task id, so the worker's commit and a sweep of this request's own hold two hours later come after it.
- HandleAIChat: only this request writes the conversation during the call; a chat without a credit service configured, which charges nothing, is not modelled.
- CostsAmongOthers: compares runs in which no other request is refused on account of this charge.
- HandleChatStream: an empty text counts as an answer; the per-tool charge the tool registry can make after a tool call (`creditFeature`), which nothing refunds; no tool sets it.
- EnsureBalance: two first requests of a user at once, of which one fails on the unique balance row.
- Int overflow of 32-bit balances, billing of subscribers in batches (`refillAllActiveSubscribers`), whose query also takes cycles ending at this very moment while `getBalance` asks for an earlier end, and all queries of logs.
- The first of several HOLD rows of one task is the one found; several cannot arise from the services.
- Per-user errors, printing and the list of users of the migration script.
- Titles, attachments, files, languages and events of chats; prompts; notes, files and Notion pages in the enqueue requests beyond their number.
- Node fields the editor only copies (summary, source type, times, message counts, embeddings), edge weights and the `intraCluster` flag, which moves do not maintain; more than one BELONGS_TO or parent per record, which the migration removes; the check of the user id.
- REPRESENTS relations in the editor: they follow CONTAINS in the migration only.
- Editor operations running concurrently, and faults of the graph store in the middle of one operation.
- Lengths and `substring` count characters here and UTF-16 units in the program; upper-casing is a parameter.
- The JSON encoding itself: `stringify` is a parameter; the notes and Notion streams repeat the loop of the conversations.
- Restoring, graph RAG, embeddings, the microscope, search, authentication, storage, mail, notification delivery and all controllers.
- Express, Prisma, Mongo, Neo4j, SQS and S3 themselves.
