# How a learner's progress is recorded exactly once

A Dafny model of the parts of Quest City Web that record a learner's progress under
concurrency, with proofs about every interleaving. `dafny verify dfyconfig.toml` checks it.

| file | what it models |
|---|---|
| `Prelude.dfy`, `StableSorting.dfy` | shared vocabulary; JavaScript's stable sort and why it is unique |
| `IdempotencyRecord.dfy`, `IdempotencyRuns.dfy` | the generation-based idempotency protocol, one SQL statement per step, and all its runs |
| `StageOrchestrator.dfy`, `StageRuns.dfy`, `StageProgress.dfy` | the stage orchestrator, what each operation keeps, what whole runs are |
| `SequenceStateStore.dfy`, `SequenceStateRuns.dfy` | the optimistic-concurrency store and its refinement of one sequential run |
| `EngineRuntime.dfy`, `EngineReplay.dfy`, `ActionDelivery.dfy` | engines as pure functions, replay, the client host, the action log, the final-sequence check |
| `AttemptLifecycle.dfy`, `AttemptConsolidation.dfy`, `Reconciliation.dfy`, `ProgressSummary.dfy` | the attempt row, racing consolidations, the cross-runtime verdict, the progress aggregate |
| `CompletionRoute.dfy`, `CompletionScores.dfy`, `CompletionScenarios.dfy`, `CompletionProperties.dfy` | competing completion requests, end to end, composed of the protocols above, and what their answers are worth |
| `EngineRegistries.dfy`, `SupportEvaluator.dfy`, `SupportProperties.dfy`, `EngineDispatch.dfy` | the registries, the prioritised engine search, and stage dispatch |
| `VersionOrder.dfy` | dotted version comparison |

Objects whose methods update fields are classes whose methods are proved against functions of
the old state; the theorems are about those functions. Runs are arbitrary sequences of
statements by any number of callers, so every schedule is covered. Errors that the program
throws are `Err`, `None` or `false` results, or a `Throws` answer.

Assumptions: one SQL statement is one atomic step that either commits and reports it or does
neither; the defaults for `generation` and `version` are 1, as the migrations say
(`infrastructure/database/migrations/0003_cross_runtime_assignment_and_attempt.sql:248`,
`infrastructure/database/migrations/0005_durable_sequence_runtime_state.sql:66`); times are
microseconds, and the service's own clock reads them truncated to milliseconds; the pacing
theorems assume one clock that never goes back; a sequence definition has at least one stage
and no stage id twice; database-generated ids are new; each call of the mounted engine host
sees the state that the previous call left; attempts are created only by insertion and start
as CREATED. The orchestrator, the registries and the evaluator are modelled with the same
branches, constants and error conditions as the code.

Where code and documentation disagree, the model follows the code, and a lemma shows the
difference:

- A redirect is documented as a jump to the remediation target. It marks the target
  IN_PROGRESS and leaves the current stage where it is (`RedirectReopensWithoutMoving`).
- A result received on a state without an entry for the current stage counts twice
  (`MissingEntryCountsTwice`); no reachable state is like that.
- The advised retry wait can be short by up to a millisecond; `AdviceSufficesIffNotRoundedDown`
  says exactly when.
- The final-sequence check is documented to find that no action is missing. It finds that the
  last one is there (`GuardPassesIffLastArrived`, `GapMisleadsSomeEngine`).
- A consolidation that throws still leaves a scored response (`ThrowingCallLeavesResponse`).
- A DUPLICATE answer of the completion route can concern an attempt that was never submitted,
  because the key does not name the attempt (`DuplicatesAreHonestIffKeysAreNotShared`).
- An attempt whose submitting request failed cannot be completed by retrying (`AnyAttemptCanGetStuck`,
  `StuckIffNeverCompleted`).
- A declared fidelity loss does not always force a gap (`FidelityHoldsIffConsistent`), and the
  limitations level ignores capabilities (`LimitationsRespectCapabilitiesIffNoneOffered`).
- A second attempt of one student at one assignment can be consolidated, which the service does not
  expect (`SecondAttemptCanBeConsolidated`, `LetThroughIff`).
- An action logged after the completing request has read the log is not scored
  (`LateActionIsNotScored`, `ScoreCoversLogIffNothingLater`).
- Different templates can share a registry key (`VersionsCanCollideIff`).
- A dispatched engine's canonical id is not compared with the selected one
  (`DispatchRunsTheSelectedEngineIffAdaptersAgree`).
- "At most" is textual at equality: "1.0.0" is not at most "1.0" (`TrailingZeroIsNotAtMost`).

## Model

| member | source | states |
|---|---|---|
| `IdempotencyRecord.IdempotencyRecordRepository.Upsert` | packages/attempts/src/repository/idempotency-record-repository.ts:64-82 | The insert-or-reopen statement: grants the first generation on a new key, the next one exactly on a retryably failed record of the same hash untouched for more than 30 s; otherwise nothing changes. No second row per key ever arises, null tenant included |
| `IdempotencyRecord.IdempotencyRecordRepository.ClassifyExisting` | packages/attempts/src/repository/idempotency-record-repository.ts:86-114 | The classifying SELECT: conflict before status, replay of the stored response, terminal failure unless retryable, otherwise the advised wait |
| `IdempotencyRecord.IdempotencyRecordRepository.Begin` | packages/attempts/src/repository/idempotency-record-repository.ts:56-115 | An uninterrupted begin never errs, is NEW exactly on an unseen key and REOPENED exactly on a reopenable record, and changes nothing otherwise |
| `IdempotencyRecord.IdempotencyRecordRepository.Complete` | packages/attempts/src/repository/idempotency-record-repository.ts:117-133 | Commits exactly when the record is PENDING at the expected generation; otherwise reports a stale generation and changes nothing |
| `IdempotencyRecord.IdempotencyRecordRepository.Fail` | packages/attempts/src/repository/idempotency-record-repository.ts:135-152 | The same for a failure, storing whether it may be retried and when it was |
| `IdempotencyRecord.ArbiterIsNullSafe` | packages/attempts/src/repository/idempotency-record-repository.ts:41-63 | The conflict target chosen by begin detects exactly the equal keys; the composite constraint alone would do so exactly for a non-null tenant |
| `IdempotencyRuns.HistoryDeterminesRecord` | packages/attempts/src/repository/idempotency-record-repository.ts:56-152 | Over every interleaving of statements: generations are granted 1, 2, 3, ... once each, the i-th committed finish carries the i-th generation, each finish followed by a grant was a retryable failure, and the record shows the last one |
| `IdempotencyRuns.EachGenerationGrantedOnce` | packages/attempts/src/repository/idempotency-record-repository.ts:36-39 | No two callers get the same generation of a key; consecutive grants differ by one; only the first is NEW |
| `IdempotencyRuns.OneFinishPerGeneration` | packages/attempts/src/repository/idempotency-record-repository.ts:117-152 | At most one finish commits per generation; a complete or a non-retryable failure is the last finish and belongs to the last grant, so at most one complete commits per key |
| `IdempotencyRuns.FailuresAreReopenings` | packages/attempts/src/repository/idempotency-record-repository.ts:67-75 | Committed failures equal reopenings, plus one if the record is FAILED now |
| `IdempotencyRuns.KeysAreIndependent` | packages/attempts/src/repository/idempotency-record-repository.ts:62-91 | A record depends only on the statements about its own key |
| `IdempotencyRuns.LaterRecord` | packages/attempts/src/repository/idempotency-record-repository.ts:67-75 | Over any later statements a record is never removed, its hash never changes, its generation never falls, and a terminal record is frozen |
| `IdempotencyRuns.HashIsTheFirst` | packages/attempts/src/repository/idempotency-record-repository.ts:65-73 | A record exists exactly from the first upsert of its key on, and keeps the hash of that request |
| `IdempotencyRuns.FinalOutcomeIsReplayed` | packages/attempts/src/repository/idempotency-record-repository.ts:96-105 | After a committed complete or non-retryable failure every later begin with the same hash gets exactly the committed response, every other hash a conflict, and nothing changes any more |
| `IdempotencyRuns.OtherPayloadAlwaysConflicts` | packages/attempts/src/repository/idempotency-record-repository.ts:96-98 | A different hash gets a conflict at every status, for ever |
| `IdempotencyRuns.StaleCallerChangesNothing` | packages/attempts/src/repository/idempotency-record-repository.ts:124-132 | A generation once finished can never be finished again, and trying leaves the table as it is |
| `IdempotencyRuns.BeginIsAtomicAtOneMoment` | packages/attempts/src/repository/idempotency-record-repository.ts:62-114 | Whatever happens between its two statements, begin answers as an atomic begin at its second moment, up to the seconds advised, unless the record has become reopenable in between; then, and only then, as at its first. The missing-row error is unreachable |
| `IdempotencyRuns.RecordIsStampedByItsLastStatement` | packages/attempts/src/repository/idempotency-record-repository.ts:69-69 | A pending record is stamped by its grant, a settled one by the finish that settled it |
| `IdempotencyRuns.ReopeningsWaitForTheWindow` | packages/attempts/src/repository/idempotency-record-repository.ts:71-74 | Each reopening comes more than 30 s after the failure that it answers |
| `IdempotencyRuns.UnsettledAnswersWithTheWait` | packages/attempts/src/repository/idempotency-record-repository.ts:102-114 | Unsettled: 30 s while pending, and after a retryable failure the least whole number of seconds that covers what is left of the window since that failure |
| `IdempotencyRuns.SuccessiveGrantsArePaced` | packages/attempts/src/repository/idempotency-record-repository.ts:71-74 | On one clock that never goes back, successive grants of a key are more than 30 s apart |
| `IdempotencyRuns.ReopeningsTakeTime` | packages/attempts/src/repository/idempotency-record-repository.ts:71-74 | g reopenings take more than 30 g seconds |
| `IdempotencyRuns.AdvisedWaitIsBounded` | packages/attempts/src/repository/idempotency-record-repository.ts:106-108 | The advised wait is between 0 and 30 s, and 0 exactly when 30 s have elapsed on the millisecond clock |
| `IdempotencyRuns.AdviceNeverTooLong` | packages/attempts/src/repository/idempotency-record-repository.ts:102-109 | On an untouched retryable record a begin (wait - 1) s after the advice or sooner never reopens it, and one a millisecond past the advised wait always does |
| `IdempotencyRuns.AdviceSufficesIffNotRoundedDown` | packages/attempts/src/repository/idempotency-record-repository.ts:102-108 | Waiting strictly longer than advised reopens an untouched record at every such moment, if and only if truncating the two clocks to milliseconds has not rounded the advice down |
| `StableSorting.SortIsOrderedPermutation` | packages/content-runtime/src/stage-orchestrator.ts:43-45 | Sorting by a rank gives an ordered permutation |
| `StableSorting.SortIsStable` | packages/content-runtime/src/stage-orchestrator.ts:43-45 | Elements of equal rank keep their order |
| `StableSorting.StableSortIsUnique` | packages/content-runtime/src/stage-orchestrator.ts:43-45 | Order and stability leave one result, so the model sorts exactly as any stable sort does |
| `StableSorting.SortIsLexOrdered` | packages/learning-engines/src/support-evaluator.ts:94-104 | A stable sort orders by rank first and by original position second |
| `StageRuns.PutOneEntry` | packages/content-runtime/src/stage-orchestrator.ts:57-69 | Updating or creating one stage entry changes that entry and no other, and keeps entries distinct |
| `StageRuns.ReceiveUnfolds` | packages/content-runtime/src/stage-orchestrator.ts:235-299 | Receiving a result rewrites the current stage entry once, with the verdict read off the rule, and nothing else |
| `StageRuns.AdvanceUnfolds` | packages/content-runtime/src/stage-orchestrator.ts:354-396 | Advancing completes the current entry, then either completes the sequence or enters the next stage in order |
| `StageRuns.StepIsGood` | packages/content-runtime/src/stage-orchestrator.ts:235-437 | One operation on a consistent state throws exactly when the definition says so and never one of the "unreachable" errors; otherwise it keeps distinct known entries, an entry for the current stage, hint level = min(hint count, maximum), ids and append-only duplicate-free references, loses nothing, keeps completed checkpoints reached, has an added reference, and counts exactly this result or this hint |
| `StageProgress.StartsAtTheFirstStage` | packages/content-runtime/src/stage-orchestrator.ts:77-104 | A sequence starts in progress at a stage of least order; only a definition without stages has no start |
| `StageProgress.ReachableIsConsistent` | packages/content-runtime/src/stage-orchestrator.ts:77-437 | All of that holds in every state reachable by any operations, redirects and abandons included |
| `StageProgress.AttemptsCountResults` | packages/content-runtime/src/stage-orchestrator.ts:246-262 | attemptsForStage is exactly the number of results received at that stage over the whole run |
| `StageProgress.HintsAreCounted` | packages/content-runtime/src/stage-orchestrator.ts:327-346 | hintCount is exactly the number of hints requested at that stage over the whole run, and the level is the minimum of it and the maximum |
| `StageProgress.ReferencesAreTheAdded` | packages/content-runtime/src/stage-orchestrator.ts:424-433 | The attempt references are exactly those added |
| `StageProgress.VerdictFollowsTheRule` | packages/content-runtime/src/stage-orchestrator.ts:264-298 | Each verdict holds exactly when the rule, the correctness and the attempts say so; an advanced stage is COMPLETED and a remediated one flagged |
| `StageProgress.EntryShowsLastMark` | packages/content-runtime/src/stage-orchestrator.ts:235-422 | A stage has an entry exactly if some operation marked it, and shows the status and the event of the last mark |
| `StageProgress.PositionIsNumberOfAdvances` | packages/content-runtime/src/stage-orchestrator.ts:354-396 | After k advances the current stage is number min(k, n - 1) in order, however results, hints, redirects and abandons are mixed in; completion follows from the advances and abandons alone |
| `StageProgress.CompleteAfterAllAdvances` | packages/content-runtime/src/stage-orchestrator.ts:369-380 | Without abandons, an n-stage sequence is complete exactly from the n-th advance on |
| `StageProgress.RedirectFreeRunIsPrefix` | packages/content-runtime/src/stage-orchestrator.ts:354-396 | In every redirect-free run the stage entries are exactly the sorted prefix up to the current stage, all earlier ones COMPLETED |
| `StageProgress.AdvanceAfterCompletionIsIdle` | packages/content-runtime/src/stage-orchestrator.ts:369-380 | A further advance straight after completion changes nothing |
| `StageProgress.StruggleIsCounted` | packages/content-runtime/src/stage-orchestrator.ts:235-299 | Closed form of a stage's stream: results that are not correct are counted exactly, whatever hints, redirects, references and abandons are mixed in; the flag goes up at the limit and stays up; the stage stays in progress |
| `StageProgress.IncorrectStream` | packages/content-runtime/src/stage-orchestrator.ts:264-299 | After any such stream the next result gives RETRY below the limit and REMEDIATION_TRIGGERED from it on, and a correct one advances |
| `StageProgress.StreamFromEntry` | packages/content-runtime/src/stage-orchestrator.ts:280-298 | From entry, the i-th incorrect result before any correct one gives RETRY for i < limit and REMEDIATION_TRIGGERED from the limit on, whatever is mixed in |
| `StageProgress.MissingEntryCountsTwice` | packages/content-runtime/src/stage-orchestrator.ts:246-262 | On a state without an entry for its current stage, one result counts as two attempts |
| `StageProgress.RedirectReopensWithoutMoving` | packages/content-runtime/src/stage-orchestrator.ts:399-422 | A redirect enters its target, completed or not, and never moves the current stage |
| `SequenceStateStore.MayCreateIffStillUnique` | infrastructure/database/migrations/0005_durable_sequence_runtime_state.sql:71-73 | A row may be created exactly when there is none and the runtime ids of the tenant stay unique |
| `SequenceStateStore.SequenceRuntimeStateRepository.Create` | packages/attempts/src/repository/sequence-runtime-state-repository.ts:98-138 | Inserts exactly when neither the attempt nor the runtime id is taken; otherwise nothing changes |
| `SequenceStateStore.SequenceRuntimeStateRepository.Save` | packages/attempts/src/repository/sequence-runtime-state-repository.ts:147-170 | Overwrites state, stage and completion and bumps the version exactly at the expected version; otherwise nothing changes |
| `SequenceStateStore.DurableSequenceRuntimeStateStore.Get` | packages/attempts/src/services/durable-sequence-runtime-state-store.ts:45-59 | Returns and remembers the stored version, or leaves the memory alone when there is no row or another runtime id |
| `SequenceStateStore.DurableSequenceRuntimeStateStore.Save` | packages/attempts/src/services/durable-sequence-runtime-state-store.ts:61-78 | Creates before any successful load, else compares and swaps on the remembered version; a refused save changes neither row nor memory |
| `SequenceStateRuns.EveryRunIsGood` | packages/attempts/src/services/durable-sequence-runtime-state-store.ts:45-78 | In every interleaving of loads, work and saves of any number of stores, commits form a chain, the row is the last commit, and every copy is the commit of its remembered version plus its own pending operations |
| `SequenceStateRuns.PersistenceRefinesOneRun` | packages/attempts/src/services/durable-sequence-runtime-state-store.ts:45-78 | The stored state is what one orchestrator reaches alone, performing the operations of all successful saves in commit order; the version counts them; the columns agree with the state, which satisfies the orchestrator invariants |
| `SequenceStateRuns.CommitsFormOneChain` | packages/attempts/src/services/durable-sequence-runtime-state-store.ts:61-78 | No update is lost: each committed state is the previous one after exactly the committing client's operations |
| `SequenceStateRuns.SaveCommitsIffCurrent` | packages/attempts/src/repository/sequence-runtime-state-repository.ts:147-170 | A save commits exactly when its client has the current version, or nothing is stored and its runtime id is free; otherwise the whole system is unchanged |
| `SequenceStateRuns.StaleUntilReload` | packages/attempts/src/services/durable-sequence-runtime-state-store.ts:73-77 | Once overtaken, a client's saves fail until it loads again |
| `SequenceStateRuns.LoadFindsTheLastCommit` | packages/attempts/src/services/durable-sequence-runtime-state-store.ts:45-59 | A load that asks for the stored runtime id gives exactly the last committed state and its version; with nothing stored or any other id it changes nothing |
| `SequenceStateRuns.LoadSaysWhatItFinds` | packages/attempts/src/services/durable-sequence-runtime-state-store.ts:45-59 | A load says NOT YET exactly without a row, and throws exactly for another runtime id |
| `SequenceStateRuns.RefusedSaveSaysWhy` | packages/attempts/src/services/durable-sequence-runtime-state-store.ts:61-78 | A refused save is ALREADY EXISTS exactly for a store that has loaded nothing, and a version conflict exactly for one that is behind |
| `SequenceStateRuns.LoadWorkSaveCommits` | packages/attempts/src/services/durable-sequence-runtime-state-store.ts:45-78 | Load, work and save commits the loaded state after exactly that work, if nobody else has committed in between |
| `SequenceStateRuns.InitializeSaveCreates` | packages/attempts/src/services/durable-sequence-runtime-state-store.ts:61-72 | The first save of an initialised state creates the row at the initial version, if attempt and runtime id are free |
| `EngineReplay.ReplayActions` | packages/learning-engines/src/engine-runtime.ts:76-94 | The loop computes the fold of the log, counts the accepted actions, and lists exactly the rejected positions in order with their reasons |
| `EngineReplay.FoldConcat` | packages/learning-engines/src/engine-runtime.ts:68-94 | Replay composes over concatenation |
| `EngineReplay.ErasingRejectedKeepsReplay` | packages/learning-engines/src/engine-runtime.ts:70-75 | Erasing the rejected actions leaves the final state, and nothing in the rest is rejected |
| `EngineReplay.EngineHost.constructor` | apps/student-web/components/engine-host/EngineHost.tsx:139-144 | Mounting replays the initial actions, so the shown state is their replay |
| `EngineReplay.EngineHost.Dispatch` | apps/student-web/components/engine-host/EngineHost.tsx:155-163 | An accepted action replaces the state, clears the result and is reported; a rejected one changes nothing; the shown state stays the replay of all actions |
| `EngineReplay.EngineHost.ConfirmAndEvaluate` | apps/student-web/components/engine-host/EngineHost.tsx:172-197 | An accepted confirmation also evaluates the new state, and only a real evaluation is forwarded |
| `ActionDelivery.SemanticActionLogRepository.Insert` | packages/attempts/src/repository/semantic-action-log-repository.ts:103-137 | Appends exactly when the attempt is the tenant's, the action is at most five minutes ahead of the clock, and neither action id nor client sequence of the attempt is taken; the log only grows |
| `ActionDelivery.SemanticActionLogRepository.FindByAttempt` | packages/attempts/src/repository/semantic-action-log-repository.ts:75-81 | Returns exactly the attempt's entries in strictly increasing client sequence |
| `ActionDelivery.SemanticActionLogRepository.FindByAttemptAndActionId` | packages/attempts/src/repository/semantic-action-log-repository.ts:83-94 | Finds an entry with that action id if and only if there is one |
| `ActionDelivery.FiveMinutesAhead` | infrastructure/database/migrations/0003_cross_runtime_assignment_and_attempt.sql:212-212 | An action may be dated at most five minutes ahead of the row that records it |
| `ActionDelivery.OneEntryPerAction` | packages/attempts/src/repository/semantic-action-log-repository.ts:96-102 | An attempt has at most one entry per action id and per client sequence |
| `ActionDelivery.OtherwiseInserted` | packages/attempts/src/repository/semantic-action-log-repository.ts:96-102 | Only an entry of the same attempt with the same action id or client sequence keeps an action out |
| `ActionDelivery.LogHoldsTheArrived` | packages/attempts/src/repository/semantic-action-log-repository.ts:96-137 | After any arrivals, repeated, out of order or refused for their time, amid other attempts' traffic, the log holds exactly the messages that arrived on time |
| `ActionDelivery.ServerReadsWhatArrived` | packages/attempts/src/repository/semantic-action-log-repository.ts:75-81 | What the server reads is the arrived messages in the client's order |
| `ActionDelivery.ServerReplaysTheClient` | packages/learning-engines/src/engine-runtime.ts:8-11 | Once all have arrived, in whatever order, the server's replay rejects none of the client's accepted actions, ends in the client's state and scores what the client scores |
| `ActionDelivery.ServerReachesTheHost` | apps/student-web/components/engine-host/EngineHost.tsx:139-197 | The mounted host's shown state and evaluation are what the server's replay of its messages ends in, and nothing is rejected if the host was mounted with accepted actions |
| `ActionDelivery.MaxSequence` | packages/attempts/src/services/final-client-sequence-guard.ts:20-20 | The largest persisted sequence, -1 for none |
| `ActionDelivery.GuardPassesIffLastArrived` | packages/attempts/src/services/final-client-sequence-guard.ts:13-25 | The check passes exactly when the last message has arrived; the log is complete exactly when in addition no gap is left |
| `ActionDelivery.GuardDecidesClaim` | packages/attempts/src/services/final-client-sequence-guard.ts:13-25 | Any claim passes exactly when it is omitted, negative, or reached by some message that arrived |
| `ActionDelivery.CompleteIffCountMatches` | packages/attempts/src/services/final-client-sequence-guard.ts:5-12 | The log is complete exactly when it has as many rows as messages were sent, which the check could count |
| `ActionDelivery.PassingGuardScoresTheClient` | packages/attempts/src/services/final-client-sequence-guard.ts:5-25 | Without gaps a passing check means the server scores what the client shows, for every engine |
| `ActionDelivery.InOrderDeliveryIsGapFree` | packages/attempts/src/services/final-client-sequence-guard.ts:5-12 | In-order delivery leaves no gap |
| `ActionDelivery.GapMisleadsSomeEngine` | packages/attempts/src/services/final-client-sequence-guard.ts:20-24 | Whenever a message below the last is missing, the check passes and some engine shows CORRECT to the client and INCORRECT to the server |
| `ActionDelivery.LastAloneLeavesGap` | packages/attempts/src/services/final-client-sequence-guard.ts:20-24 | Two messages of which only the last arrives are such a case |
| `AttemptLifecycle.LearningAttemptRepository.Create` | packages/attempts/src/repository/learning-attempt-repository.ts:229-270 | A new attempt is CREATED with nothing else set, unless a row it refers to is missing or its event id or creation key is taken; then nothing changes |
| `AttemptLifecycle.LearningAttemptRepository.FindByCreationKey` | packages/attempts/src/repository/learning-attempt-repository.ts:200-213 | The one attempt with that creation key, or none exactly when there is none |
| `AttemptLifecycle.LearningAttemptRepository.TransitionToInProgress` | packages/attempts/src/repository/learning-attempt-repository.ts:273-283 | Leaves CREATED, is a no-op beyond it, and answers with the row as it then is, whatever other callers do between its two statements; never with a CREATED one |
| `AttemptLifecycle.LearningAttemptRepository.TransitionToCompletionSubmitted` | packages/attempts/src/repository/learning-attempt-repository.ts:290-304 | Fires exactly from IN_PROGRESS |
| `AttemptLifecycle.LearningAttemptRepository.UpdatePendingCompletionStatus` | packages/attempts/src/repository/learning-attempt-repository.ts:307-321 | Fires exactly from COMPLETION_SUBMITTED and keeps the state |
| `AttemptLifecycle.LearningAttemptRepository.ConsolidateAttempt` | packages/attempts/src/repository/learning-attempt-repository.ts:324-339 | Fires exactly from COMPLETION_SUBMITTED and sets state, status, completion time and outcome together |
| `AttemptLifecycle.ClashMeansSharedKey` | infrastructure/database/migrations/0003_cross_runtime_assignment_and_attempt.sql:174-175 | Two attempts clash exactly if they share the event id, or tenant, assignment, student and creation key |
| `AttemptLifecycle.LifeOnlyMovesForward` | packages/attempts/src/repository/learning-attempt-repository.ts:273-339 | Over all interleaved calls the state never moves backwards, the table CHECK is never violated, identity columns never change, and each step is taken at most once |
| `AttemptLifecycle.CompletionIsAllOrNothing` | infrastructure/database/migrations/0003_cross_runtime_assignment_and_attempt.sql:150-171 | COMPLETED, CONSOLIDATED, an outcome and a completion time hold together or not at all; the completion status is null exactly before submission; at most one outcome is ever written, the one shown |
| `AttemptLifecycle.OutcomeIsFinal` | packages/attempts/src/repository/learning-attempt-repository.ts:323-339 | Once there is an outcome, no call changes the attempt |
| `AttemptConsolidation.AttemptResponseRepository.InsertUnlessPresent` | packages/attempts/src/repository/attempt-response-repository.ts:73-88 | The first response per attempt and item stays; a new one needs an attempt of its tenant |
| `AttemptConsolidation.AttemptResponseRepository.FindExisting` | packages/attempts/src/repository/attempt-response-repository.ts:90-96 | Finds the stored response of that tenant |
| `AttemptConsolidation.AttemptResponseRepository.Insert` | packages/attempts/src/repository/attempt-response-repository.ts:65-97 | The two statements with any inserts of other callers in between: the first response stays and later ones get it back; the missing-row error needs another tenant's row |
| `AttemptConsolidation.AttemptConsolidationService.ComputeScore` | packages/attempts/src/services/attempt-consolidation-service.ts:94-116 | The score is the evaluation of the replayed log, or none without engine, valid configuration or evaluation |
| `AttemptConsolidation.AttemptConsolidationService.ComputeOutcome` | packages/attempts/src/services/attempt-consolidation-service.ts:86-145 | The outcome carries the score of the evaluated replay; a new response row repeats its correctness, evidence and validator, and one already there stays; only an attempt that is not the tenant's is refused, exactly when there is a score |
| `AttemptConsolidation.AttemptConsolidationService.CompleteAttempt` | packages/attempts/src/services/attempt-consolidation-service.ts:70-83 | Consolidates from COMPLETION_SUBMITTED, repeats the stored outcome from COMPLETED, throws otherwise |
| `AttemptConsolidation.AttemptConsolidationService.Consolidate` | packages/attempts/src/services/attempt-consolidation-service.ts:67-145 | An uninterrupted call consolidates exactly from COMPLETION_SUBMITTED, repeats the stored outcome from COMPLETED, throws otherwise and for an attempt that is not the tenant's, and on the tenant's own attempt writes the response in every case, with the correctness, evidence and validator of the evaluated replay |
| `AttemptConsolidation.StoredTellsEvaluation` | packages/attempts/src/services/attempt-consolidation-service.ts:106-141 | The response row repeats the correctness and evidence of the evaluated replay and names the validator, or there is none without an evaluation; the outcome carries its score |
| `AttemptConsolidation.EveryRunIsSound` | packages/attempts/src/services/attempt-consolidation-service.ts:67-145 | In every interleaving of racing callers the response row and the stored score, once there, repeat correctness, evidence, validator and score of the evaluated replay |
| `AttemptConsolidation.ExactlyOneCallerConsolidates` | packages/attempts/src/services/attempt-consolidation-service.ts:70-83 | When all racing callers are done exactly one has consolidated, every other reports the stored outcome as a duplicate, none has thrown, and row and outcome repeat the evaluated replay |
| `AttemptConsolidation.FourTurnsFinish` | packages/attempts/src/services/attempt-consolidation-service.ts:67-145 | Four statements finish any caller, whatever the others do |
| `AttemptConsolidation.EnoughTurnsSettleTheRace` | packages/attempts/src/services/attempt-consolidation-service.ts:67-145 | A schedule that gives every caller four turns ends with the attempt COMPLETED by exactly one of them |
| `AttemptConsolidation.ThrowingCallLeavesResponse` | packages/attempts/src/services/attempt-consolidation-service.ts:131-142 | From any other state a call throws and yet leaves a scored response behind, exactly when there is a score |
| `CompletionRoute.EveryRunIsGood` | apps/api/app/attempts/[attemptId]/complete/route.ts:55-208 | The invariant of any number of interleaved completion requests, statement by statement from the attempt lookup to the recorded answer, with errors and deaths anywhere: a granted generation has one live owner, submitters own their attempts, and completed records hold a successful answer |
| `CompletionRoute.NoFinishIsStale` | apps/api/app/attempts/[attemptId]/complete/route.ts:147-206 | No complete or fail issued by the route is ever stale, and consolidation's duplicate answer never comes up |
| `CompletionRoute.OneSuccessPerAttempt` | apps/api/app/attempts/[attemptId]/complete/route.ts:125-196 | Whatever keys and retries compete, at most one request ever answers CONSOLIDATED or RECONCILIATION_REQUIRED for an attempt, and the row says what the answer says |
| `CompletionRoute.RecordedUnderOneKey` | apps/api/app/attempts/[attemptId]/complete/route.ts:147-191 | Each attempt is recorded under one idempotency key at most |
| `CompletionRoute.DuplicateHasOriginal` | apps/api/app/attempts/[attemptId]/complete/route.ts:107-112 | A DUPLICATE answer has an original: a request with the same key and payload that succeeded for its own attempt |
| `CompletionRoute.KeyNamesEverythingButTheAttempt` | packages/attempts/src/services/idempotency-service.ts:8-39 | For ids without colons, two keys are equal exactly when tenant, assignment, student and header are; the attempt does not enter |
| `CompletionScores.ConsolidatedScoreIsEvaluation` | apps/api/app/attempts/[attemptId]/complete/route.ts:84-183 | The score of a CONSOLIDATED answer is the stored one and the evaluation of the replayed log as the request read it |
| `CompletionScores.ReadingIsCompleteIffNothingLater` | apps/api/app/attempts/[attemptId]/complete/route.ts:84-86 | What the request read is the attempt's whole log exactly when no action of it was logged later |
| `CompletionScores.ScoreCoversLogIffNothingLater` | apps/api/app/attempts/[attemptId]/complete/route.ts:84-86 | Whatever the scoring, the score of what was read is the score of the whole log if and only if no action of the attempt was logged later |
| `CompletionScores.ConsolidatedScoreIsWhatTheHostShows` | apps/api/app/attempts/[attemptId]/complete/route.ts:84-183 | If the host's actions are logged in order and the request claims the last of them, a CONSOLIDATED answer and the attempt's row carry the score of what the mounted host shows |
| `CompletionScenarios.LetThroughIff` | apps/api/app/attempts/[attemptId]/complete/route.ts:129-170 | A request goes on to consolidate if and only if exactly one attempt of the student on the assignment is consolidated, or none is and at most one is pending |
| `CompletionProperties.DuplicatesAreHonestIffKeysAreNotShared` | packages/attempts/src/services/idempotency-service.ts:8-40 | DUPLICATE means that the request's own attempt has been submitted, in every run, if and only if no key and payload are shared between attempts |
| `CompletionProperties.LookupAdmits` | apps/api/app/attempts/[attemptId]/complete/route.ts:55-82 | The lookup admits a request exactly for the student's own attempt in progress or submitted, and refuses it otherwise |
| `CompletionProperties.ReadingAdmits` | apps/api/app/attempts/[attemptId]/complete/route.ts:84-97 | The claim check admits a request exactly if it claims nothing, or the log has an action of the attempt at least as late |
| `CompletionProperties.AnswersFollowTheRecord` | apps/api/app/attempts/[attemptId]/complete/route.ts:107-121 | A request that was granted nothing gets CONFLICT for another payload, DUPLICATE for a completed record, and TOO SOON otherwise |
| `CompletionProperties.NeverTerminal` | apps/api/app/attempts/[attemptId]/complete/route.ts:197-206 | In every run, whatever is thrown, every recorded failure may be retried and no request is told that it is terminal |
| `CompletionProperties.RetryAfterFailureSubmits` | apps/api/app/attempts/[attemptId]/complete/route.ts:123-170 | After a failure with the attempt still in progress, the same request sent again more than 30 s later is granted the next generation and submits |
| `CompletionProperties.ThrownRequestCanBeRetried` | apps/api/app/attempts/[attemptId]/complete/route.ts:123-206 | For every call sent twice there is a run in which the first fails before submitting and the second is granted generation 2 and submits |
| `CompletionProperties.StuckIffNeverCompleted` | apps/api/app/attempts/[attemptId]/complete/route.ts:161-171 | A submitted attempt is never completed, whatever is retried, if and only if no request is about to consolidate it |
| `CompletionProperties.OnlySubmitterConsolidates` | apps/api/app/attempts/[attemptId]/complete/route.ts:161-176 | The only request that can be about to consolidate an attempt is the one that submitted it |
| `CompletionProperties.AnyAttemptCanGetStuck` | apps/api/app/attempts/[attemptId]/complete/route.ts:197-207 | For every attempt there is a run that leaves it so: an error thrown right after the submission |
| `CompletionProperties.SecondAttemptCanBeConsolidated` | packages/attempts/src/services/cross-runtime-reconciliation-service.ts:50-60 | Any two attempts, of one student at one assignment included, can both be consolidated under two keys: the second request reads AUTO_RESOLVABLE and is let through |
| `CompletionProperties.TwoConsolidatedNeedReconciliation` | packages/attempts/src/services/cross-runtime-reconciliation-service.ts:56-59 | With two consolidated attempts in one scope every further request is sent to reconciliation |
| `CompletionProperties.LateActionIsNotScored` | apps/api/app/attempts/[attemptId]/complete/route.ts:84-183 | For every attempt there is a run that consolidates it although one more action of it was logged, while it was in progress, after the log was read |
| `Reconciliation.EveryAttemptIsReported` | packages/attempts/src/services/cross-runtime-reconciliation-service.ts:18-46 | The verdict lists every attempt as it is, in order |
| `Reconciliation.OnlyConsolidatedPrevails` | packages/attempts/src/services/cross-runtime-reconciliation-service.ts:48-60 | An attempt prevails exactly if it is the one and only consolidated one |
| `Reconciliation.ConcurrentAreTheStudents` | packages/attempts/src/repository/learning-attempt-repository.ts:215-227 | The attempts evaluated are exactly the student's on the assignment in the tenant, earliest started first |
| `Reconciliation.ResolutionIsByCounts` | packages/attempts/src/services/cross-runtime-reconciliation-service.ts:48-71 | The resolution by the numbers of consolidated attempts and of those in progress or submitted |
| `Reconciliation.VerdictIgnoresOrder` | packages/attempts/src/services/cross-runtime-reconciliation-service.ts:46-71 | The verdict depends on the attempts, not on their order |
| `Reconciliation.VerdictIsStable` | packages/attempts/src/services/cross-runtime-reconciliation-service.ts:48-71 | Over any further changes: never NONE_PENDING again after a consolidation, never two different prevailing attempts, and reconciliation required for ever from two consolidated attempts on |
| `ProgressSummary.Summarize` | packages/attempts/src/repository/learning-attempt-repository.ts:134-145 | The loop totals the grouped rows overall, by state and by status |
| `ProgressSummary.SummarizeRows` | packages/attempts/src/repository/learning-attempt-repository.ts:126-145 | Query and loop together count the matching attempts, however the groups come out |
| `ProgressSummary.TotalsAreConserved` | packages/attempts/src/repository/learning-attempt-repository.ts:134-145 | The states add up to the total; the statuses add up to the submitted and completed attempts |
| `ProgressSummary.MatchingRowsAreTheStudents` | packages/attempts/src/repository/learning-attempt-repository.ts:111-124 | The rows counted are exactly the student's own that satisfy every filter given |
| `ProgressSummary.StatusFilterIsAnEntry` | packages/attempts/src/repository/learning-attempt-repository.ts:117-145 | The total filtered by a completion status is the entry of that status without the filter |
| `ProgressSummary.ChannelsPartition` | packages/attempts/src/repository/learning-attempt-repository.ts:111-124 | The summaries by runtime channel add up, entry by entry, to the unfiltered one |
| `EngineRegistries.FoundByCapabilities` | packages/learning-engines/src/registry.ts:58-64 | Found are exactly the ACTIVE engines that declare every requested capability as required or optional |
| `EngineRegistries.TemplatesFoundByCapabilities` | packages/learning-engines/src/template-registry.ts:46-51 | Found are exactly the templates that require every requested capability |
| `EngineRegistries.EngineRegistry.Register` | packages/learning-engines/src/registry.ts:28-33 | Appends exactly an unseen id; a duplicate leaves the registry alone |
| `EngineRegistries.EngineRegistry.GetByRuntimeAdapterId` | packages/learning-engines/src/registry.ts:41-48 | The first entry, in registration order, with that adapter, or none exactly when there is none |
| `EngineRegistries.TemplateRegistry.Register` | packages/learning-engines/src/template-registry.ts:25-31 | Appends exactly an unseen key |
| `EngineRegistries.TemplateKeysAgreeIff` | packages/learning-engines/src/template-registry.ts:11-13 | Two templates share a key exactly when they are the same or one's separator lies inside the other's id |
| `EngineRegistries.VersionsCanCollideIff` | packages/learning-engines/src/template-registry.ts:11-13 | Different templates of two versions can share a key if and only if the versions differ and one ends with "@" and the other |
| `EngineRegistries.EngineRuntimeRegistry.Register` | packages/learning-engines/src/engine-runtime-registry.ts:24-32 | Adds the engine to both indexes, or, for a taken adapter id, changes neither; both always hold the registered engines, each once, in order |
| `EngineRegistries.EngineRuntimeRegistry.GetByCanonicalEngineId` | packages/learning-engines/src/engine-runtime-registry.ts:38-40 | Hands out the registry's own array, equal to the registration-order filter of everything registered, or a new empty one |
| `EngineRegistries.EngineRuntimeRegistry.List` | packages/learning-engines/src/engine-runtime-registry.ts:42-44 | Everything registered, in order |
| `EngineRegistries.LookupsAgree` | packages/learning-engines/src/engine-runtime-registry.ts:34-44 | The two lookups and the list always agree |
| `EngineRegistries.RegisterAfterLookup` | packages/learning-engines/src/engine-runtime-registry.ts:29-40 | An array looked up before a registration still answers the lookup after it, unless the lookup had found nothing; then it stays empty |
| `SupportEvaluator.Search` | packages/learning-engines/src/support-evaluator.ts:106-177 | The loop of all three passes: stops at the first admitted candidate, and otherwise has collected every rejection |
| `SupportEvaluator.TryEngines` | packages/learning-engines/src/support-evaluator.ts:106-123 | The first pass stops at the first engine that its assessment does not veto, and otherwise has collected every loss |
| `SupportEvaluator.TryTemplates` | packages/learning-engines/src/support-evaluator.ts:126-147 | The second pass does the same for covering templates on ACTIVE engines |
| `SupportEvaluator.TryLimitations` | packages/learning-engines/src/support-evaluator.ts:150-177 | The third pass does the same for assessments with minor limitations |
| `SupportEvaluator.EvaluateSupport` | packages/learning-engines/src/support-evaluator.ts:70-206 | The whole search equals its specification and the report builder never throws |
| `SupportProperties.LevelIsHighestAvailable` | packages/learning-engines/src/support-evaluator.ts:12-14 | A level is used exactly when it has an admissible candidate and no higher level has one |
| `SupportProperties.SelectedEngineIsBest` | packages/learning-engines/src/support-evaluator.ts:92-123 | An engine is selected exactly when it has minimal preference rank, then registration position, among the non-vetoed ACTIVE covering ones |
| `SupportProperties.EarlierListedIsPreferred` | packages/learning-engines/src/support-evaluator.ts:93-104 | An engine listed before another, or listed when the other is not, is preferred; unlisted ones are equal |
| `SupportProperties.ListedEarlierWins` | packages/learning-engines/src/support-evaluator.ts:93-123 | An admissible engine listed earlier keeps a later or unlisted one from being selected |
| `SupportProperties.EarliestRegisteredWinsWithoutPreference` | packages/learning-engines/src/support-evaluator.ts:93-123 | Without preferences the earliest registered admissible engine is selected |
| `SupportProperties.LossesAreTheUnpreserved` | packages/learning-engines/src/support-evaluator.ts:58-66 | A dimension is lost exactly if the assessment does not preserve it |
| `SupportProperties.SelectionIsSound` | packages/learning-engines/src/support-evaluator.ts:5-14 | Whatever is selected, at any level, is ACTIVE and not vetoed; engines and templates cover the capabilities; limitations are all minor and come from a preserving assessment |
| `SupportProperties.RegisteringMoreNeverHurts` | packages/learning-engines/src/support-evaluator.ts:70-206 | Registering any more engines and templates never worsens the outcome |
| `SupportProperties.NewcomerWinsOnlyByPreference` | packages/learning-engines/src/support-evaluator.ts:93-104 | One more engine replaces the selected one only by being strictly more preferred |
| `SupportProperties.SelectedTemplateIsAdmissible` | packages/learning-engines/src/support-evaluator.ts:126-147 | A selected template covers the requirement on an ACTIVE engine without a declared loss |
| `SupportProperties.LimitationsMeanMissingOrVetoed` | packages/learning-engines/src/support-evaluator.ts:150-177 | Whatever engine the limitations level selects either lacks a required capability or is vetoed by its own assessment |
| `SupportProperties.LimitationsIgnoreCapabilities` | packages/learning-engines/src/support-evaluator.ts:150-177 | Any assessment that offers minor limitations gets an engine without any capability selected |
| `SupportProperties.LimitationsRespectCapabilitiesIffNoneOffered` | packages/learning-engines/src/support-evaluator.ts:150-177 | Engines selected at the limitations level cover the required capabilities, for every activity and registry, if and only if no assessment offers minor limitations |
| `SupportProperties.GapIsAccountedFor` | packages/learning-engines/src/engine-gap-report.ts:28-31 | A gap report always has a reason: exactly the losses that ruled a candidate out, or, without any, that nothing declares the capabilities; a new engine is recommended exactly when none is registered |
| `SupportProperties.ComplaintsAreExact` | packages/learning-engines/src/support-evaluator.ts:106-177 | The three loops report exactly the losses that ruled a candidate out, level by level |
| `SupportProperties.GapNamesEveryExactMatch` | packages/learning-engines/src/support-evaluator.ts:106-113 | In a gap every ACTIVE covering engine is named with exactly what it loses |
| `SupportProperties.FidelityHoldsIffConsistent` | packages/learning-engines/src/support-evaluator.ts:5-9 | "Any declared loss forces a gap" holds for every activity and registry if and only if no preserving first assessment is contradicted later and no engine with a loss declared, for itself or a template on it, has another assessment offering minor limitations |
| `EngineDispatch.WebAdapterIsTheFirst` | packages/content-runtime/src/stage-orchestrator.ts:201-203 | The adapter of an engine is its first WEB one, unless that has an empty id |
| `EngineDispatch.ResolveEngineDispatch` | packages/content-runtime/src/stage-orchestrator.ts:138-219 | An engine is returned exactly if it is the one registered under the requested adapter id, or under the first WEB adapter of the engine selected at the first two levels, never a substitute; a refusal names the first thing missing |
| `EngineDispatch.DispatchRunsTheSelectedEngineIffAdaptersAgree` | packages/content-runtime/src/stage-orchestrator.ts:201-219 | The engine that runs is the engine selected, for every request, if and only if the two registries agree about the WEB adapters of the ACTIVE engines with a non-empty id |
| `VersionOrder.SemverAtLeast` | packages/content-runtime/src/compatibility-resolver.ts:46-55 | The loop decides zero-padded lexicographic order, NaN and infinities included |
| `VersionOrder.SemverAtMost` | packages/content-runtime/src/compatibility-resolver.ts:57-59 | Accepts the same text, or a first difference that is not in favour of the version; on numeric versions, exactly what is strictly below or the same text |
| `VersionOrder.SplitRoundTrip` | packages/content-runtime/src/compatibility-resolver.ts:47-48 | Splitting at the dots loses nothing |
| `VersionOrder.PartsHaveNoDots` | packages/content-runtime/src/compatibility-resolver.ts:47-48 | Splitting is at every dot |
| `VersionOrder.LargerComponentWins` | packages/content-runtime/src/compatibility-resolver.ts:49-53 | At the first difference the larger component wins, infinities included |
| `VersionOrder.NaNDecidesAgainstBoth` | packages/content-runtime/src/compatibility-resolver.ts:49-53 | A component that is NaN, met before any difference, decides against both |
| `VersionOrder.ReflexiveIffNumeric` | packages/content-runtime/src/compatibility-resolver.ts:46-55 | A version is at least itself exactly when none of its components is NaN |
| `VersionOrder.TotalOnNumeric` | packages/content-runtime/src/compatibility-resolver.ts:46-55 | Total on versions without NaN; both ways exactly when all components agree (numeric part of section 11 of Semantic Versioning 2.0.0) |
| `VersionOrder.Transitive` | packages/content-runtime/src/compatibility-resolver.ts:46-55 | Transitive for any lengths |
| `VersionOrder.AtMostIsBelowOrSameText` | packages/content-runtime/src/compatibility-resolver.ts:57-59 | On numeric versions the upper bound admits exactly what is strictly below or textually equal |
| `VersionOrder.AtMostIsConverseIffSameSpelling` | packages/content-runtime/src/compatibility-resolver.ts:57-59 | It is the converse of the lower bound exactly where equal versions are written alike |
| `VersionOrder.TrailingZeroIsNotAtMost` | packages/content-runtime/src/compatibility-resolver.ts:57-59 | Any numeric version with one more ".0" is equal and yet not "at most" |
| `VersionOrder.NotANumberFailsTheLowerBound` | packages/content-runtime/src/compatibility-resolver.ts:46-59 | A version with a component that is NaN is not at least itself, yet at most itself |

## Left out

- Liveness of PENDING records: `expires_at` is written and never read, and only the owner's finish releases a record.
- A statement that commits and then fails to report it to its caller, and transactions spanning statements.
- In `AttemptConsolidation.dfy` all racing callers work from one log; the completion route's model lets actions be logged at any time, since the actions route checks the state and then inserts.
- In `CompletionRoute.dfy` the session and ownership checks are one yes-or-no input, and the response row is left to `AttemptConsolidation.dfy`.
- EngineReplay.EngineHost.ConfirmAndEvaluate: React batching and stale closures are not modelled, nor is a host without a valid configuration.
- The remaining finders of the registries and repositories, and the review columns of an attempt: single filters or untouched data.
- `summarizeForClass`: the same fold over the rows of a join.
- `resolveCompatibility`: nine independent checks around the version order.
- JSON Schema validation of states, outcomes and actions, taken to succeed; JSON encoding; SHA-256, so request hashes are opaque and nothing is said about different payloads.
- JavaScript's number parsing, a parameter of the version order.
- HTTP, cookies, CSRF, rate limits, rendering, internationalisation, and the client's save and reload protocol, whose late responses can pair a new version with an old state.
- The integer width of database counters and sequence numbers: they are unbounded here.
- Concrete engines, the convergence, staff, learning-path and incident services: not part of this model.
