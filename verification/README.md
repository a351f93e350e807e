# Verification of the review workflow

This project models the state machines of the review workflow and the algorithms they rest on, and
proves properties of them that span whole runs. `dafny verify dfyconfig.toml` covers every file.

## How the model is laid out

* **The application aggregate.** `Aggregate` gives every request on an application as a function of what it
  read without a lock (`first`, `second`), the rows as they are when the lock is held (`cur`) and the clock.
  `ApplicationStore` has the same requests as methods that rewrite the rows in place, each proved equal to
  its function. A run (`AggregateRuns`) lets every request have done its reads at any earlier states, so
  it covers every interleaving. `SupplementRuns` compares the per-task resubmission with the generic submit,
  `RequestRuns` follows supplement requests and snapshots over the runs, `RepairRuns` the repair of missing review
  tasks, `DecisionRuns` final decisions and closing, `CancellationRuns` what a cancellation freezes, and
  `AssistantRuns` has the third route of a resubmission. `SubmissionRules`, `ResubmissionRules`, `LifecycleRules`,
  `ReviewRules` and `Refusals` say by the rows alone when each request commits, what it changes and why it is refused.
* **The award roster.** `RosterLogic` is the preview compiler, as specification functions and as the loops
  over a map that compute them; `RosterRows` says what one row means. `RosterWorkflow` is the decision with its
  jobs, corrections and confirmation, `RosterJobs` which job's result it freezes, `RosterRaces` the
  runs in which outdated reads do harm, `AwardDecisionStore` its transactions in place, `StoredCorrections` the JSON
  they keep. `RosterRules` and `RosterReading` say when each request commits and how a line of the file is read.
* **City eligibility.** `CityEligibility` has the automatic answer, the basis a manager's verdict is kept
  under, and the verdict; `EligibilityAnswers` says what the answer means for the recipients it is given. `CityAwards`
  ties it to the decisions of the roster.
* **City analytics.** `ReviewProgress`, `QueryFilters` (filters as conditions in SQL's three-valued logic) and
  `CityAnalytics` with `TaskCounters` (the pass of counters and the lists its figures lead to). `SubmittedProgress`
  joins them to the runs of the aggregate.
* **Algorithms.** `Json`, `JsonText`, `StableJson`, `RowMatching` and `Percentile` for the AI evaluation; `RefreshTokens`
  and `TokenStore`; `CriteriaValidation`, `SeedRules` and `CriteriaSync`; `SubmissionSpread`.
* **Shared.** `ReviewTypes`, `Text`, `TextOrder`, `Sequences`, `Sorting`.

Every code path that writes an application's row, review tasks, supplement requests, snapshots, decision history,
verdict or the modelled fields of its evidence is a request of `Aggregate`: drafts, submission, the lifecycle actions,
verdicts, the three resubmissions, prechecks, officers' decisions and claims, the repair of tasks, aggregation,
finalization and its reopening, resolution cases, changes, imports and analyses of evidence. A transaction is one step, a
row lock is mutual exclusion, and an update with a condition is a compare-and-set. Clocks, randomness and what other
services answer are parameters.

## What turned out not to hold

For each of these the model keeps what the code does and proves exactly when the property holds. Where the
failure takes several requests, a lemma gives a run of them.

* A precheck stores its status without the row lock or any comparison, so it can change the status of an
  application cancelled after it was read; the assistant's resubmission takes no lock either and does not ask for a
  cancellation (`CancelledStepIsFrozenIff`; the runs are `StalePrecheckThaws` and `CancelledApplicationChanges`).
* Imports of events and analyses of documents change the evidence of a cancelled application
  (`CancelledEvidenceStaysIff`; the run is `CancelledApplicationChanges`).
* The repair of missing review tasks does not touch the version of the application, so a first submission that read
  before the repair creates the tasks again (`TasksAreDistinctIff`, `AnomalousIffOverlappedOrWidened`; the run is
  `EnsureRaceDuplicatesTasks`).
* The generic submit marks only requests of tasks it read as awaiting a supplement, so it can strand the request
  of another (`GenericSubmitStrandsIff`; the run is `StaleGenericSubmitStrandsARequest`).
* A case resolved by asking for a supplement leaves no request, and then the generic submit and the resubmission of
  the task differ (`RunIsRequestedIff`, `GenericSubmitMatchesInRunsIff`; the run is `ResolutionTellsRoutesApart`).
* The assistant's resubmission puts the application under review although another task is outstanding, which no route
  can answer then (`AssistantMatchesResubmitIff`, `OthersAreLeftBehind`; the run is `AssistantLeavesATaskBehind`).
* A manager's aggregation completes an application whose tasks are all accepted without a final decision; cancelled and
  reopened, it stays closed (`RunIsAccountedIff`, `ReopenedApplicationsAreOpen`; the run is
  `AggregationClosesWithoutADecision`).
* An officer's decision and the resolution of a case clear or replace the final decision of an application and leave no
  history record (`OfficerDecisionConservesIff`, `ResolutionConservesIff`; the runs are `OfficerDecisionLosesADecision`
  and `ResolutionLosesADecision`).
* Reopening an archived application for a supplement, and whatever else puts it back to work, leaves it archived
  (`ArchiveStaysWarrantedIff`, `RunIsWarrantedIff`; the run is `ArchivedIsReopened`).
* Restoring an archived decision picks the status from a read made before its transaction; acting on an outdated
  one, a decision can be confirmed twice (`RunIsConsistentIff`; the run is `DecisionIsConfirmedTwice`).
* Processing a roster looks for a job before it queues one and locks nothing, so two requests queue two jobs of one file,
  and the sheet that can be confirmed is not shown (`RunIsSoundIff`, `WhatIsConfirmedIsWhatIsShownIff`; the run is
  `PreviewIsHidden`).
* A worker stores its result whatever the job has become, so one whose lease had run out undoes later edits
  (`FinishedJobStaysIff`; the run is `LateWorkerUndoesAnEdit`).
* Logging out with a token that was refreshed, before the look-up or after it, leaves the successor active
  (`LogoutEndsChainIff`; the runs are those of `LogoutLeavesTheSuccessor`).
* `localeCompare` can tie different names, and then the text of a JSON object depends on the order of its members
  (`StableIgnoresOrderIff`).
* A list by final status alone shows unsubmitted applications on top of the summary's figure
  (`BareFinalListAgreesIff`, `BareFinalListShowsDrafts`).
* Rows are matched after pooling all samples, so a row can be credited across samples (`PoolingMatchesApartIff`,
  `PoolingCanMatchMore`).

## Model

| member | source | states |
|---|---|---|
| ApplicationStore.Application.StartCurrent | src/modules/applications/applications.service.ts:127-163 | a new application is an individual City draft at version 1 with its first snapshot |
| ApplicationStore.Application.UpdateTargetLevel | src/modules/applications/applications.service.ts:181-225 | the gate on what was read, then under the lock the compare-and-set on status and version; the rows become what the request function says |
| ApplicationStore.Application.AutosaveDraft | src/modules/applications/applications.service.ts:242-280 | a draft save bumps the version and appends one snapshot, or refuses and changes nothing |
| ApplicationStore.Application.Submit | src/modules/applications/applications.service.ts:338-693 | the whole submission: gate on two reads, locked re-read for City, stored precheck, compare-and-set, snapshot, tasks created or swept, evidence moved |
| ApplicationStore.Application.BuildSubmitCriteria | src/modules/applications/applications.service.ts:1143-1163 | lists no criterion twice, begins with the five core ones, and has priority besides exactly if it is included and found by the precheck or in the evidence |
| ApplicationStore.CriteriaAreDetermined | src/modules/applications/applications.service.ts:1143-1163 | a list with those properties is the only one |
| ApplicationStore.Application.StoreSubmission | src/modules/applications/applications.service.ts:581-692 | the writes of a submission that passed every check, one after the other |
| ApplicationStore.Application.CreateReviewTasks | src/modules/applications/applications.service.ts:930-963 | the loop appends one waiting task per criterion, linked to that criterion's evidence |
| ApplicationStore.Application.SweepSupplementTasks | src/modules/applications/applications.service.ts:601-668 | the generic resubmission of tasks read as awaiting a supplement |
| ApplicationStore.Application.ReopenSupplement | src/modules/applications/applications.service.ts:810-858 | changes the status under the lock and nothing of the archive fields |
| ApplicationStore.Application.Cancel | src/modules/applications/application-lifecycle.service.ts:28-74 | a current final decision moves to the history and is cleared, the cancellation is stamped |
| ApplicationStore.Application.ReopenCancelled | src/modules/applications/application-lifecycle.service.ts:117-174 | clears cancellation and archive, and picks the status to return to |
| ApplicationStore.Application.FindOutstanding | src/modules/applications/application-lifecycle.service.ts:124-174 | whether any task still awaits a supplement or has an unanswered request |
| ApplicationStore.Application.Archive | src/modules/applications/application-lifecycle.service.ts:216-251 | only terminal or cancelled applications that are not archived |
| ApplicationStore.Application.Unarchive | src/modules/applications/application-lifecycle.service.ts:253-277 | clears only the archive stamp |
| ApplicationStore.Application.VerifyEligibility | src/modules/applications/city-submission-eligibility.repository.ts:104-176 | the guarded write of a verdict before the first submission, with an update time later than the last |
| ApplicationStore.Application.Resubmit | src/modules/applications/supplement-resubmit.service.ts:58-240 | answers the newest active or the legacy request, clears the verdict, links and moves evidence, leaves the supplement status with the last task |
| SubmissionRules.SubmitCommitsIff | src/modules/applications/applications.service.ts:48-68 | exactly when a submission commits: sender, level, cancellation, status, nothing changed since either read, eligibility and window both before and under the lock, documents, warnings |
| SubmissionRules.RefusedSubmissionKeeps | src/modules/applications/applications.service.ts:546-578 | a refused one changes nothing, but for the precheck of a student's first City submission that only warnings stop |
| SubmissionRules.SubmissionStores | src/modules/applications/applications.service.ts:581-683 | a committed one is under review with the next version, its snapshot and the time of the first submission |
| SubmissionRules.SubmissionCreates | src/modules/applications/applications.service.ts:930-963 | one that read no tasks appends one for each core criterion and, elsewhere than at individual City, for priority if found, each linked to exactly its evidence |
| SubmissionRules.FirstSubmissionIsChecked | src/modules/applications/applications.service.ts:377-397 | over every run: the step that first submits a student's application was found eligible twice, in the window twice, and unchanged since it was read |
| ResubmissionRules.ResubmitCommitsIff | src/modules/applications/supplement-resubmit.service.ts:58-100 | exactly when the resubmission of a task commits, told by its rows, requests, evidence and deadlines |
| ResubmissionRules.ResubmissionStores | src/modules/applications/supplement-resubmit.service.ts:125-176 | it answers the newest active request or what was asked before, links exactly the evidence of the criterion, and leaves the supplement exactly if no other task awaits one |
| ResubmissionRules.ResubmissionReturnsEvidence | src/modules/applications/supplement-resubmit.service.ts:177-192 | exactly the evidence of the criterion that is draft, pending, indexed or in need of a supplement goes to review; all other stays |
| ResubmissionRules.AssistantReturnsEvidence | src/modules/student-assistant/student-assistant.service.ts:350-365 | so for the assistant, by the criterion as it was read |
| ResubmissionRules.SubmissionReturnsEvidence | src/modules/applications/applications.service.ts:653-667 | so for the generic submit, by all criteria read as awaiting a supplement |
| ResubmissionRules.SubmissionSweeps | src/modules/applications/applications.service.ts:601-652 | a submission that read tasks creates none; which tasks it puts back to waiting, which get evidence linked and which requests answered |
| LifecycleRules.CancelIff | src/modules/applications/application-lifecycle.service.ts:28-74 | exactly when a cancellation commits and what becomes of the decision |
| LifecycleRules.ReopenCancelledIff | src/modules/applications/application-lifecycle.service.ts:117-174 | exactly when a reopening commits and which status it gives back |
| LifecycleRules.ArchivingIff | src/modules/applications/application-lifecycle.service.ts:216-277 | the same for archiving and restoring |
| LifecycleRules.ReopenSupplementIff | src/modules/applications/applications.service.ts:810-858 | the same for asking for a supplement |
| LifecycleRules.VerdictIff | src/modules/applications/city-submission-eligibility.repository.ts:104-176 | the same for a verdict, whose time is later than the last update |
| LifecycleRules.DraftSavedIff | src/modules/applications/applications.service.ts:181-280 | the same for the two draft writes |
| ReviewRules.OfficerDecidesIff | src/modules/review/review.service.ts:685-1060 | exactly when an officer's decision commits, what becomes of task and request, and the status and decision that follow from all tasks |
| ReviewRules.ClaimIff | src/modules/review/review.service.ts:535-600 | which tasks can be claimed, and that only a waiting one changes |
| ReviewRules.EnsureTasksIff | src/modules/review/review.service.ts:1750-1915 | the repair adds a new task for exactly the wanted criteria without one |
| ReviewRules.AggregateIff | src/modules/manager/manager.service.ts:1224-1257 | who may aggregate, and that the status stored follows from the tasks as they were read |
| ReviewRules.FinalizeIff | src/modules/manager/manager.service.ts:1281-1450 | exactly when a finalization commits and what it stores |
| ReviewRules.ReopenFinalIff | src/modules/manager/manager.service.ts:1565-1665 | the same for reopening a result |
| ReviewRules.ResolveCaseIff | src/modules/resolution/resolution.service.ts:213-360 | the same for resolving a case, with the status that follows from the tasks |
| ReviewRules.ReopenCaseIff | src/modules/resolution/resolution.service.ts:460-490 | the same for reopening one |
| ReviewRules.PrecheckStores | src/modules/precheck/precheck.service.ts:51-58 | a precheck stores its status by the status it had read |
| ReviewRules.ChangeEvidenceIff | src/modules/evidences/evidences.service.ts:91-310 | evidence is edited by hand exactly without a cancellation |
| ReviewRules.ImportEventIff | src/modules/decision-imports/decision-imports.service.ts:1009-1150 | who may import an event into which application, and the evidence it becomes |
| ReviewRules.ProcessEvidenceStores | src/modules/jobs/processors/evidence-ocr.processor.ts:560-575 | what each outcome of an analysis changes of its evidence, cancelled or not, and of no other |
| ReviewRules.AssistantResubmitIff | src/modules/student-assistant/student-assistant.service.ts:268-388 | exactly when the assistant's resubmission commits and what it stores |
| Refusals.RefusalsAreTrue | src/modules/applications/applications.service.ts:338-520 | whatever request on an application is refused, the reason its error names holds of what was read or is there |
| AggregateRuns.SnapshotsNumberTheVersions | src/modules/applications/applications.service.ts:142-163 | in every interleaving the snapshot versions are exactly 1 to the current version, one each |
| AggregateRuns.VersionsNeverDecrease | src/modules/applications/applications.service.ts:198-225 | the draft version never goes back |
| AggregateRuns.OneCommitPerVersion | src/modules/applications/applications.service.ts:198-225 | of requests prepared against one version at most one ever writes |
| AggregateRuns.CommittedSubmission | src/modules/applications/applications.service.ts:581-599 | a submission that commits saw the current version and first-submission time |
| AggregateRuns.FirstSubmissionIsForever | src/modules/applications/applications.service.ts:581-599 | the time of the first submission is never moved or lost |
| AggregateRuns.SameVersionSameTasks | src/modules/applications/applications.service.ts:685-692 | between two states of one version with no committed repair between them no review task appears |
| AggregateRuns.SubmissionCreatesOnEmpty | src/modules/applications/applications.service.ts:488 | although the tasks are read before the lock, a submission that read none commits where there are none, unless a repair committed between its read and its commit |
| AggregateRuns.TasksAreCreatedOnce | src/modules/applications/applications.service.ts:685-692 | in any interleaving without a committed repair review tasks are created at most once |
| AggregateRuns.SubmittedIffTasks | src/modules/applications/applications.service.ts:685-692 | without a committed repair an application has review tasks exactly when it has been submitted |
| AggregateRuns.CityApplicationsHaveTheCoreTasks | src/modules/applications/applications.service.ts:1143-1163 | without a committed repair, one first submitted as individual City has exactly one task per core criterion, for good |
| AggregateRuns.SubmissionDuplicatesIff | src/modules/applications/applications.service.ts:685-692 | exactly when a committed submission leaves two tasks of one criterion |
| RepairRuns.CreationMeetsTasksIff | src/modules/review/review.service.ts:1750-1860 | a submission that creates tasks finds tasks of its criteria in place exactly if a repair committed between its read of the tasks and its own commit; else it finds none |
| RepairRuns.TasksAreDistinctIff | src/modules/review/review.service.ts:1750-1860 | with the repair of missing tasks taking part, no criterion has two tasks exactly if no earlier first submission had such a repair between its read and its commit |
| RepairRuns.TasksHaveCore | src/modules/review/review.service.ts:1750-1860 | whatever repairs there were, an application with tasks has one for every core criterion |
| RepairRuns.SubmittedHasTasks | src/modules/review/review.service.ts:1750-1860 | a submitted application has review tasks, whatever repairs there were |
| RepairRuns.OffCoreIff | src/modules/review/review.service.ts:1750-1860 | a task off the core criteria is there exactly if a submission or repair that had read the application as other than individual City created one |
| RepairRuns.EnsureRaceDuplicatesTasks | src/modules/review/review.service.ts:1750-1860 | a run in which the overlap happens and the five tasks appear twice |
| CancellationRuns.CancelledStepIsFrozenIff | src/modules/applications/application-lifecycle.policy.ts:11-36 | of all requests exactly three kinds change more of a cancelled application than archive fields, update time and evidence: a reopening, a precheck that read a draft, and the assistant's resubmission of a task not already so |
| CancellationRuns.CancellationFreezes | src/modules/applications/application-lifecycle.policy.ts:11-36 | while cancelled, in every interleaving without those three and whatever was read before, row, snapshots, tasks, requests, decisions and verdict stay, archive fields and update time apart |
| CancellationRuns.CancelledEvidenceStaysIff | src/modules/decision-imports/decision-imports.service.ts:1040-1150 | the evidence of a cancelled application changes exactly by a new event import, an analysis that says something new, or the assistant's resubmission if it has evidence to move |
| CancellationRuns.CancelledEvidenceIsKept | src/modules/jobs/processors/evidence-ocr.processor.ts:560-575 | while cancelled no evidence is lost, none changes its criterion, and a status changes only back to pending or under review; without those three nothing of it changes |
| CancellationRuns.StalePrecheckThaws | src/modules/precheck/precheck.service.ts:51-58 | a run in which a precheck commits without the lock and changes a cancelled application's status |
| CancellationRuns.CancelledApplicationChanges | src/modules/student-assistant/student-assistant.service.ts:268-388 | a run without outdated reads in which a cancelled application gets evidence by an import, is put back under review by the assistant, and has its document queued again |
| CancellationRuns.CancelThenReopenRestores | src/modules/applications/application-lifecycle.service.ts:124-174 | cancelling and reopening an application under review gives it back |
| DecisionRuns.DecisionsAreConserved | src/modules/applications/application-lifecycle.service.ts:31-74 | every request but a finalization, an officer's decision and the resolution of a case keeps all final decisions, current and past, field for field and in order |
| DecisionRuns.RunsConserveDecisions | src/modules/manager/manager.service.ts:1565-1665 | so does any stretch of a run without those three, cancellations and reopenings of results included |
| DecisionRuns.CityFinalizationAddsOneDecision | src/modules/manager/manager.service.ts:1281-1450 | finalizing an individual City application adds one decision or changes nothing |
| DecisionRuns.OfficerDecisionConservesIff | src/modules/review/review.service.ts:1996-2083 | an officer's decision keeps the final decisions exactly if there is no current one, or it closes the application as failed once more with the same; the history never gets a record |
| DecisionRuns.OfficerDecisionLosesADecision | src/modules/review/review.service.ts:1996-2083 | a run in which a finalized City application loses its decision that way |
| DecisionRuns.ResolutionConservesIff | src/modules/resolution/resolution.service.ts:875-963 | the resolution of a case keeps them exactly if there is no current one, or it closes the application as failed with the same, which it does only without another open case and without asking for a supplement |
| DecisionRuns.ResolutionLosesADecision | src/modules/resolution/resolution.service.ts:875-963 | a run in which a finalized application loses its decision by a case closed without action |
| DecisionRuns.StepKeepsAccountedIff | src/modules/manager/manager.service.ts:1224-1257 | of all requests exactly a committed aggregation that read only accepted tasks, where there is no final decision, leaves a closed application without one |
| DecisionRuns.RunIsAccountedIff | src/modules/manager/manager.service.ts:1896-1916 | throughout a run a closed application has a current decision, or one in its history if cancelled, exactly if there is no such aggregation |
| DecisionRuns.TerminalApplicationsHaveADecision | src/modules/applications/application-lifecycle.service.ts:31-74 | up to any state before such an aggregation it has |
| DecisionRuns.ReopenedApplicationsAreOpen | src/modules/applications/application-lifecycle.service.ts:117-174 | over every run, reopening a cancelled application leaves it closed exactly if it was closed and has no superseded decision, and only after such an aggregation |
| DecisionRuns.AggregationClosesWithoutADecision | src/modules/manager/manager.service.ts:1224-1257 | a run: submitted, five tasks accepted, aggregated, cancelled, reopened; it is closed, not cancelled, and has no decision anywhere |
| DecisionRuns.HistoryOnlyGrows | src/modules/applications/application-lifecycle.service.ts:31-74 | the history of superseded decisions is only appended to |
| AggregateRuns.VerdictIsSettledBySubmission | src/modules/applications/city-submission-eligibility.repository.ts:104-176 | no eligibility verdict is written after the first submission |
| AggregateRuns.StepKeepsVerification | src/modules/applications/city-submission-eligibility.repository.ts:104-176 | only a verdict before the first submission writes one, and it moves the update time strictly forward and nothing else of the row |
| DecisionRuns.ArchiveStaysWarrantedIff | src/modules/applications/applications.service.ts:853-858 | of all requests, which leave an archived application neither closed nor cancelled: those that put it back to work and leave the stamp, each under its exact guard |
| DecisionRuns.RunIsWarrantedIff | src/modules/applications/application-lifecycle.service.ts:216-277 | throughout a run archived applications are closed or cancelled exactly if none is put back while archived |
| DecisionRuns.ArchivedIsReopened | src/modules/applications/applications.service.ts:810-858 | a run in which an archived application is reopened for a supplement and stays archived |
| DecisionRuns.ArchiveThenUnarchiveRestores | src/modules/applications/application-lifecycle.service.ts:216-277 | archiving succeeds exactly for a terminal or cancelled unarchived application, and unarchiving undoes it |
| RequestRuns.RequestsAreSound | src/modules/applications/supplement-resubmit.service.ts:58-240 | in every interleaving a task has at most one active supplement request, and a request's status and answer time are those its history ends with, though the assistant rewrites histories from what it read |
| RequestRuns.StepKeepsRequestedIff | src/modules/resolution/resolution.service.ts:1189-1222 | of all requests exactly a case resolved into a supplement of a task with no active request leaves a task that awaits a supplement without one; no action on a task read as awaiting one counts too |
| RequestRuns.RunIsRequestedIff | src/modules/resolution/resolution.service.ts:1189-1222 | throughout a run every task awaiting a supplement has a request for it exactly if no case is resolved that way |
| RequestRuns.GenericSubmitMatchesInRunsIff | src/modules/applications/application-submission-mode.service.ts:10-46 | in every state of every run the generic submit stands in for the resubmission of the one outstanding task exactly if that has an active request |
| RequestRuns.ResolutionTellsRoutesApart | src/modules/resolution/resolution.service.ts:213-360 | a run in which it has none and the two, both allowed, lead to different tasks |
| RequestRuns.GenericSubmitMatchesInRuns | src/modules/applications/application-submission-mode.service.ts:10-46 | so it always does in runs without such a resolution |
| RequestRuns.SameVersionSameLevel | src/modules/applications/applications.service.ts:198-225 | between two states of one version the target level is the same |
| RequestRuns.StepReplaysAt | src/modules/applications/applications.service.ts:215-224 | a new snapshot names the level it was written on or replaces |
| RequestRuns.SnapshotsReplayTheRow | src/modules/applications/applications.service.ts:142-163 | in every interleaving, replaying the snapshots gives the row's target level and first-submission time |
| SupplementRuns.OneResubmission | src/modules/applications/supplement-resubmit.service.ts:58-240 | a ready resubmission commits, settles its own task only and keeps the others ready |
| SupplementRuns.AnyOrderReachesTheSameState | src/modules/applications/supplement-resubmit.service.ts:58-240 | any order of ready resubmissions succeeds and reaches the state determined by the set of tasks done, the number outstanding falling by one each time |
| SupplementRuns.ResubmissionsCommute | src/modules/applications/supplement-resubmit.service.ts:58-240 | two orders reach the same tasks, requests, evidence and application |
| SupplementRuns.LastResubmissionLeavesSupplement | src/modules/applications/supplement-resubmit.service.ts:58-240 | the application leaves the supplement status exactly with the last outstanding task |
| SupplementRuns.MarkingAgreesIff | src/modules/applications/applications.service.ts:601-668 | marking all active requests and marking the newest agree exactly if one is active |
| SupplementRuns.GenericSubmitMatchesResubmitIff | src/modules/applications/application-submission-mode.service.ts:10-46 | in any state, stored before the request table existed or not, with one outstanding task the generic submit reaches the resubmission's task, requests and evidence exactly if the task has one active request |
| SupplementRuns.GenericSubmitStrandsIff | src/modules/applications/applications.service.ts:601-668 | a generic submit strands a request exactly if the task was put on supplement after the tasks were read |
| SupplementRuns.ResubmitStrandsNothing | src/modules/applications/supplement-resubmit.service.ts:58-240 | a per-task resubmission of a task with one active request strands none |
| SupplementRuns.StaleGenericSubmitStrandsARequest | src/modules/applications/application-submission-mode.service.ts:26-44 | a run in which the guard allows the generic submit and a request is stranded |
| AssistantRuns.AssistantMatchesResubmitIff | src/modules/student-assistant/student-assistant.service.ts:268-388 | with nothing changed since its read the assistant's resubmission is the per-task one but for the status, and the same exactly if no other task is outstanding |
| AssistantRuns.OthersAreLeftBehind | src/modules/student-assistant/student-assistant.service.ts:346-349 | another outstanding task stays so under an application that is under review, where none of the three routes can answer it |
| AssistantRuns.AssistantLeavesATaskBehind | src/modules/student-assistant/student-assistant.service.ts:346-349 | a run in which that happens |
| AssistantRuns.AssistantStrandsIff | src/modules/student-assistant/student-assistant.service.ts:322-333 | whatever it had read, the assistant strands a request exactly if one is active that is not the one it had read as active |
| RosterLogic.ComputePreview | src/modules/award-decisions/award-roster.logic.ts:123-159 | rows collected, keys counted in a map, repeated ones overwritten, statuses tallied: the preview as specified |
| RosterLogic.CompileRow | src/modules/award-decisions/award-roster.logic.ts:162-241 | one row, its errors pushed in order, its status, institution and matched user |
| RosterRows.ResolvedIff | src/modules/award-decisions/award-roster.logic.ts:243-267 | a text is resolved exactly if it means one institution and no other |
| RosterRows.StatusFollowsErrors | src/modules/award-decisions/award-roster.logic.ts:194-240 | valid exactly without errors, conflict exactly with the institution alone unresolved, matched exactly if a user has the code there |
| RosterRows.CorrectionActsLikeAnEdit | src/modules/award-decisions/award-roster.logic.ts:162-241 | under a valid mapping a corrected row says what the line would say with those cells typed in; a corrected field without a column is as corrected and decides nothing else |
| RosterLogic.CollectRows | src/modules/award-decisions/award-roster.logic.ts:130-134 | one row per line that is not blank, numbered by its line |
| RosterLogic.CountKeys | src/modules/award-decisions/award-roster.logic.ts:136-141 | the map holds for each key how many counted rows have it |
| RosterLogic.OverwriteRepeated | src/modules/award-decisions/award-roster.logic.ts:142-146 | rows of a key counted twice or more, and no others, become DUPLICATE |
| RosterLogic.Tally | src/modules/award-decisions/award-roster.logic.ts:147-159 | the summary counts each status, matched and unmatched rows |
| RosterLogic.JoinInjective | src/modules/award-decisions/award-roster.logic.ts:139 | the key joined with a NUL character tells NUL-free pairs apart |
| RosterLogic.DuplicateIff | src/modules/award-decisions/award-roster.logic.ts:136-146 | a row ends DUPLICATE exactly if it is valid on its own and another such row has the same institution and student code |
| RosterLogic.ValidRowsAreDistinct | src/modules/award-decisions/award-roster.logic.ts:136-146 | the rows left VALID have pairwise distinct institution and code, in file order |
| RosterLogic.RowNumbersIncrease | src/modules/award-decisions/award-roster.logic.ts:130-134 | source row numbers increase strictly across dropped blank lines |
| RosterLogic.EveryLineHasARow | src/modules/award-decisions/award-roster.logic.ts:130-134 | no line with content is lost: the row built from it is among the rows |
| RosterLogic.StatusCountsAddUp | src/modules/award-decisions/award-roster.logic.ts:147-159 | the four status counts add up to the total, and all are valid exactly if that count is the total |
| RosterLogic.OtherRowsUnchanged | src/modules/award-decisions/award-roster.logic.ts:162-241 | two correction maps that differ at one row give the same row list with identical other rows before duplicates are marked |
| RosterLogic.CorrectionIsLocal | src/modules/award-decisions/award-roster.logic.ts:162-241 | in the preview another row changes at most between VALID and DUPLICATE, and only if its key is the corrected row's before or after |
| StoredCorrections.ParseRowCorrections | src/modules/award-decisions/award-roster.repository.ts:503-521 | the loop over the stored entries fills the record as specified |
| StoredCorrections.CorrectionRoundTrip | src/modules/award-decisions/award-roster.repository.ts:503-521 | a stored correction reads back as itself, missing and null fields kept apart |
| StoredCorrections.ParseIsIdentityIffStorable | src/modules/award-decisions/award-roster.repository.ts:503-521 | reading back is the identity exactly on the maps the API can store |
| StoredCorrections.ParsedIsStorable | src/modules/award-decisions/award-roster.repository.ts:503-521 | whatever the JSON holds, what is read is such a map |
| AwardDecisionStore.AwardDecision.Create | src/modules/award-decisions/award-decisions.service.ts:55-66 | a new decision is an unconfirmed draft without files, jobs or recipients |
| AwardDecisionStore.AwardDecision.Update | src/modules/award-decisions/award-decisions.repository.ts:74-88 | the guarded edit of a draft's year, number and date, each only if given |
| AwardDecisionStore.AwardDecision.AttachFile | src/modules/award-decisions/award-decisions.repository.ts:130-170 | a file is attached to a draft only |
| AwardDecisionStore.AwardDecision.ProcessRoster | src/modules/award-decisions/award-roster.service.ts:34-72 | on the decision and the latest job as they were read, queues, retries or leaves the job of the file; a retry that finds the job no longer failed queues another |
| AwardDecisionStore.AwardDecision.UpdatePreview | src/modules/award-decisions/award-roster.repository.ts:108-238 | mapping, correction and revert edit a copy of the corrections of the job that was read, recompute and store, or refuse and store nothing |
| AwardDecisionStore.AwardDecision.Confirm | src/modules/award-decisions/award-roster.repository.ts:312-422 | recomputes under the lock, refuses unless every row is valid, and inserts one recipient per row |
| AwardDecisionStore.AwardDecision.Archive | src/modules/award-decisions/award-decisions.repository.ts:89-96 | from draft or confirmed only |
| AwardDecisionStore.AwardDecision.Unarchive | src/modules/award-decisions/award-decisions.service.ts:130-151 | restores the status chosen from the confirmation time that was read before |
| RosterWorkflow.RunIsConsistentIff | src/modules/award-decisions/award-decisions.service.ts:130-151 | over a run confirmed implies a confirmation time and draft implies none, exactly if no restore acts on an outdated read |
| RosterWorkflow.StaleRestoreConfirmsTwice | src/modules/award-decisions/award-decisions.service.ts:130-151 | what an outdated restore can do to any archived draft that can be confirmed: a second confirmation that stores every recipient twice |
| RosterRaces.DecisionIsConfirmedTwice | src/modules/award-decisions/award-decisions.service.ts:130-151 | a run of ten steps in which it happens |
| RosterWorkflow.ConfirmationIsForever | src/modules/award-decisions/award-decisions.repository.ts:74-170 | in runs whose restores act on a right read, recipients, files and details never change after a confirmation |
| RosterWorkflow.FinishedJobStaysIff | src/modules/jobs/jobs.service.ts:339-345 | a finished job of a confirmed decision changes exactly if a worker that also had it finishes with another result |
| RosterWorkflow.ConfirmedAtMostOnce | src/modules/award-decisions/award-roster.repository.ts:312-422 | in runs whose restores act on a right read, a decision is confirmed at most once |
| RosterWorkflow.ConfirmCommitsIff | src/modules/award-decisions/award-roster.repository.ts:312-422 | exactly when a confirmation commits, and that it appends a recipient with code, name, class, institution, user, match and line of each preview row |
| RosterWorkflow.RecipientsAreTheConfirmedRows | src/modules/award-decisions/award-roster.repository.ts:312-422 | in runs whose restores act on a right read, from the confirmation on recipients are one-to-one with the valid rows of the current file's preview, field by field, in order and pairwise distinct |
| RosterWorkflow.ArchiveThenUnarchiveRestores | src/modules/award-decisions/award-decisions.service.ts:110-151 | in runs whose restores act on a right read, archiving and restoring gives the decision back, draft or confirmed |
| RosterWorkflow.RunsAreWellStored | src/modules/award-decisions/award-roster.repository.ts:208-223 | in every run the stored corrections are ones the API wrote |
| RosterWorkflow.StoredPreviewIsFresh | src/modules/award-decisions/award-roster.service.ts:205-222 | after every edit and every job finished with a result the stored rows and summary are a fresh preview of the stored inputs, whichever job the edit had read |
| RosterRaces.LateWorkerUndoesAnEdit | src/modules/jobs/jobs.service.ts:339-345 | a run in which a worker whose lease had run out finishes after a manager's edit, and the edit is gone |
| RosterJobs.RunIsSoundIff | src/modules/award-decisions/award-roster.service.ts:34-72 | throughout a run no roster file has two jobs and a job of the current file is the latest, exactly if no processing request queues a job where its file or the current one has got one since it looked |
| RosterJobs.JobsAreSound | src/modules/award-decisions/award-roster.service.ts:34-72 | up to any state before that they are |
| RosterJobs.CurrentReadQueuesRightly | src/modules/award-decisions/award-roster.service.ts:34-72 | a processing request with nothing in between its reads and its write never does that |
| RosterJobs.WhatIsConfirmedIsWhatIsShownIff | src/modules/award-decisions/award-roster.repository.ts:350-366 | in every state of every run the sheet a confirmation would freeze is the one a preview shows, exactly unless a later unfinished job hides the file's finished one |
| RosterJobs.WhatIsConfirmedIsWhatIsShown | src/modules/award-decisions/award-roster.repository.ts:350-366 | so where jobs are queued rightly it always is |
| RosterRaces.PreviewIsHidden | src/modules/award-decisions/award-roster.service.ts:51-71 | a run in which two processing requests queue two jobs of one file, and a sheet that is not shown could be confirmed |
| RosterWorkflow.RowExistsIff | src/modules/award-decisions/award-roster.logic.ts:130-134 | which rows a preview has depends on the file alone |
| RosterWorkflow.CorrectionsThenRevert | src/modules/award-decisions/award-roster.repository.ts:152-207 | after any corrections of an uncorrected row one revert succeeds and gives back the stored state |
| RosterRules.EditsIff | src/modules/award-decisions/award-decisions.repository.ts:74-170 | details and files change on drafts only, just those given |
| RosterRules.ArchivingIff | src/modules/award-decisions/award-decisions.service.ts:110-151 | when archiving and restoring commit, and the status each leaves |
| RosterRules.ProcessIff | src/modules/award-decisions/award-roster.service.ts:34-72 | when a processing request leaves the latest job, queues it again or queues another |
| RosterRules.WorkersIff | src/modules/jobs/jobs.repository.ts:70-140 | which jobs are claimed and recovered, and what becomes of them |
| RosterRules.FinishIff | src/modules/jobs/processors/award-roster-ingestion.processor.ts:56-120 | a worker completes its job exactly if it could use what it read, with a preview of just that table |
| RosterRules.EditPreviewIff | src/modules/award-decisions/award-roster.repository.ts:108-238 | in the states of a run, exactly when an edit of a preview commits, and that the stored result reads back as the changed sheet |
| RosterRules.RefusalsAreTrue | src/modules/award-decisions/award-roster.repository.ts:108-238 | whatever request on a decision is refused, the reason it names holds |
| RosterReading.DroppedIff | src/modules/award-decisions/award-roster.logic.ts:130-134 | a line is dropped exactly if only blanks show in it |
| Text.TrimmedOff | src/modules/award-decisions/award-roster.logic.ts:275-288 | trimming takes off blanks at both ends and nothing else |
| RosterReading.FieldsSay | src/modules/award-decisions/award-roster.logic.ts:162-193 | every field says what it is corrected to, or else what the cell under the first column of that name says; no code is read from a number |
| RosterReading.ErrorsSay | src/modules/award-decisions/award-roster.logic.ts:194-240 | the errors, in order, say exactly what is missing, and the institution is the one its text resolves to |
| RosterReading.MatchesIff | src/modules/award-decisions/award-roster.logic.ts:261-267 | an institution goes by its code, name, short name and aliases, normalised |
| RosterReading.StatusSays | src/modules/award-decisions/award-roster.logic.ts:194-240 | the status by the errors, the user by code and institution, and the match by both |
| RosterReading.FirstUserIff | src/modules/award-decisions/award-roster.logic.ts:194-240 | a row is matched with the first user at the institution with its code |
| RosterReading.MappingIsValidIff | src/modules/award-decisions/award-roster.logic.ts:111-121 | which mappings are accepted |
| RosterReading.SummaryCounts | src/modules/award-decisions/award-roster.logic.ts:147-159 | the summary counts rows by status and by match |
| CityEligibility.ContextIff | src/modules/applications/city-submission-eligibility.service.ts:384-423 | which contexts are refused with which error, and which are eligible without looking at any recipient |
| CityEligibility.AutomaticStatusIff | src/modules/applications/city-submission-eligibility.service.ts:425-523 | under a university, exactly when the answer is eligible, needs verification or is not eligible, and exactly when each reason is given, told by how many recipients share code, or name and class |
| CityEligibility.BasisEqualIff | src/modules/applications/city-submission-eligibility.service.ts:526-564 | two bases are equal exactly if the normalised facts are, counting recipients with multiplicity |
| CityEligibility.BasisHashEqualIff | src/modules/applications/city-submission-eligibility.service.ts:526-564 | and so are the hashes |
| CityEligibility.BasisIgnoresOrder | src/modules/applications/city-submission-eligibility.service.ts:533-543 | the basis is the same for every order of the recipients |
| CityEligibility.AnswerFromCounts | src/modules/applications/city-submission-eligibility.service.ts:425-523 | the automatic answer depends on the facts only through two counts |
| CityEligibility.SameFactsSameAnswer | src/modules/applications/city-submission-eligibility.service.ts:425-523 | equal facts give the same status and reasons |
| CityEligibility.VerdictAppliesIff | src/modules/applications/city-submission-eligibility.service.ts:230-257 | a stored verdict decides a later case exactly while the normalised facts are unchanged, and then by approval or rejection |
| CityEligibility.MoreRecipientsNeverLower | src/modules/applications/city-submission-eligibility.service.ts:425-523 | further confirmed recipients never lower the automatic status |
| CityEligibility.MoreRecipientsRetireTheVerdict | src/modules/applications/city-submission-eligibility.service.ts:230-257 | but they retire a stored verdict |
| EligibilityAnswers.AnsweredIff | src/modules/applications/city-submission-eligibility.service.ts:384-423 | which contexts get an answer, and which one without asking for a recipient |
| EligibilityAnswers.AutomaticAnswerIff | src/modules/applications/city-submission-eligibility.service.ts:384-523 | the automatic answer under a university: the application it is about, the status and the very reasons, by which of the given recipients hold the student's code, or name and class |
| EligibilityAnswers.CandidatesAre | src/modules/applications/city-submission-eligibility.service.ts:476-500 | a manager is shown exactly the recipients with the student's name and class |
| EligibilityAnswers.SameFormIff | src/modules/applications/city-submission-eligibility.service.ts:533-540 | two recipients are one to the basis exactly if codes, names and classes are normalised alike |
| EligibilityAnswers.SameIdentityIff | src/modules/applications/city-submission-eligibility.service.ts:552-560 | so are two students |
| EligibilityAnswers.AnswersShareBasisIff | src/modules/applications/city-submission-eligibility.service.ts:526-564 | two automatic answers have one basis hash exactly if application, university, student and recipients, normalised, are the same |
| EligibilityAnswers.VerdictDecidesIff | src/modules/applications/city-submission-eligibility.service.ts:230-257 | a verdict can be given exactly on an answer that needs one, and decides a later answer exactly if the facts, recipients included, are the same |
| EligibilityAnswers.MoreNeverLower | src/modules/applications/city-submission-eligibility.service.ts:384-523 | further recipients, in any order, never lower an automatic answer |
| CityAwards.OtherRequestsKeepAwards | src/modules/applications/city-submission-eligibility.repository.ts:230-249 | only confirming, archiving and restoring a decision change the recipients eligibility looks up |
| CityAwards.ConfirmingNeverLowers | src/modules/applications/city-submission-eligibility.repository.ts:230-249 | confirming a roster never lowers anyone's automatic eligibility |
| CityAwards.HeldIff | src/modules/applications/city-submission-eligibility.repository.ts:230-249 | what eligibility looks up is exactly the recipients of confirmed decisions of the year at the school |
| CityAwards.ConfirmedRowsCount | src/modules/applications/city-submission-eligibility.repository.ts:230-249 | in any run, while a roster is confirmed, a row with a student's code makes the student eligible, and one with name and class at least a case for verification |
| ReviewProgress.Compute | src/modules/analytics/city-analytics.service.ts:509-531 | grouping in a map and two passes give the progress as specified |
| ReviewProgress.TasksFillSlotsOrAreUnexpected | src/modules/analytics/city-analytics.service.ts:509-531 | tasks plus missing slots equal five plus unexpected tasks |
| ReviewProgress.AnomalousIff | src/modules/analytics/city-analytics.service.ts:509-531 | anomalous exactly unless there is one task per core criterion and no other |
| ReviewProgress.ProgressMeans | src/modules/analytics/city-analytics.service.ts:509-531 | reviewed and missing are the numbers of core criteria whose only task has a decision, and of those without a task |
| ReviewProgress.FullyReviewedIff | src/modules/analytics/city-analytics.service.ts:400-401 | five reviewed slots and no anomaly mean one task per core criterion, all accepted or rejected |
| SubmittedProgress.CitySubmissionsAreNeverAnomalous | src/modules/analytics/city-analytics.service.ts:509-531 | an application first submitted as individual City is never reported anomalous, in any interleaving without a committed repair |
| SubmittedProgress.AnomalousIffOverlappedOrWidened | src/modules/analytics/city-analytics.service.ts:509-531 | with repairs taking part, a submitted application is anomalous exactly if a first submission overlapped a repair, or a step that had read it as other than individual City created a task off the core criteria |
| QueryFilters.ScopeSelects | src/modules/analytics/city-analytics.service.ts:292-310 | the scope of every City query, in SQL logic, selects the rows in scope |
| QueryFilters.FinalFilterMeans | src/modules/analytics/city-analytics.service.ts:126-146 | the final-status filters select by the result the summary shows, missing level included |
| QueryFilters.InReviewFilterMeans | src/modules/analytics/city-analytics.service.ts:150-156 | never unknown, so its negation is the complement |
| QueryFilters.SupplementFilterMeans | src/modules/analytics/city-analytics.service.ts:173-181 | likewise |
| QueryFilters.ResolutionFilterMeans | src/modules/analytics/city-analytics.service.ts:182-191 | likewise |
| QueryFilters.SearchFilterMeans | src/modules/analytics/city-analytics.service.ts:165-172 | the text search, with a missing student code |
| QueryFilters.ListSelectsIff | src/modules/analytics/city-analytics.service.ts:124-192 | the list's whole condition in three-valued logic selects exactly the rows the in-memory predicates accept |
| QueryFilters.MissingLevelIsLostIff | src/modules/analytics/city-analytics.service.ts:128-143 | without its branch for a missing level the filter loses exactly the passed applications that have none |
| CityAnalytics.Summarize | src/modules/analytics/city-analytics.service.ts:312-500 | one pass over the applications; every counter and the totals of every school, criterion and officer count what they say, and a school or officer has an entry exactly if listed or, for a school, if it has an application |
| CityAnalytics.CountRow | src/modules/analytics/city-analytics.service.ts:386-457 | one more application adds one to exactly the counters it belongs to, and its tasks to those of their criterion and officer |
| CityAnalytics.CountSchool | src/modules/analytics/city-analytics.service.ts:459-484 | the same for its school |
| CityAnalytics.FiguresAreListTotals | src/modules/analytics/city-analytics.service.ts:124-192 | every figure of the summary is the total of the list it leads to |
| CityAnalytics.SchoolFiguresAreListTotals | src/modules/analytics/city-analytics.service.ts:459-484 | so is every figure of a school in the list narrowed to it |
| CityAnalytics.BareFinalListAgreesIff | src/modules/analytics/city-analytics.service.ts:126-149 | a final-status list not narrowed to submitted applications agrees exactly if no unsubmitted one has the result |
| CityAnalytics.BareFinalListShowsDrafts | src/modules/analytics/city-analytics.service.ts:126-149 | a database on which it does not: one draft |
| TaskCounters.CountTasks | src/modules/analytics/city-analytics.service.ts:404-424 | the tasks of one application are added to the totals of their criterion and of their listed officer, and a task off the core criteria to none |
| TaskCounters.CriterionFiguresAddUp | src/modules/analytics/city-analytics.service.ts:404-413 | a criterion's six status figures add up to its tasks |
| TaskCounters.OfficerFiguresAddUp | src/modules/analytics/city-analytics.service.ts:415-422 | an officer's active tasks are the pending, supplementing and escalated ones, and with the completed ones all the officer holds on the core criteria |
| TaskCounters.CriteriaAddUp | src/modules/analytics/city-analytics.service.ts:404-413 | the five totals are all tasks but those off the core criteria |
| CityAnalytics.FiguresAddUp | src/modules/analytics/city-analytics.service.ts:443-457 | submitted and not, finalized and not, passed and failed add up |
| CityAnalytics.CompletedAreReviewed | src/modules/analytics/city-analytics.service.ts:400-402 | completed reviews are exactly the submitted, fully reviewed applications, all among those with five reviewed slots |
| CityAnalytics.CompletedAreReviewedAt | src/modules/analytics/city-analytics.service.ts:459-484 | so are those of a school |
| CityAnalytics.ProgressAddsUp | src/modules/analytics/city-analytics.service.ts:395-399 | the six progress figures add up to the submitted applications |
| CityAnalytics.CasesAddUp | src/modules/analytics/city-analytics.service.ts:425-442 | open and resolved cases are all cases |
| CityAnalytics.SlotFiguresSum | src/modules/analytics/city-analytics.service.ts:395-424 | missing slots and unexpected tasks are summed over submitted applications, tasks awaiting a supplement over all |
| CityAnalytics.ActiveAndCancelledAreAll | src/modules/analytics/city-analytics.service.ts:292-310 | the applications of the summary and the cancelled ones counted apart are all of the selection |
| CityAnalytics.SchoolsAddUp | src/modules/analytics/city-analytics.service.ts:459-484 | school figures sum to the overall figure |
| Json.StringifyInjective | src/modules/ai/ai-evaluation.ts:93-100 | the text of a JSON value determines it, member order included |
| JsonText.EscapeStandsFor | src/modules/ai/ai-evaluation.ts:93-100 | each character is written as itself if the grammar allows, else by its short escape, else by four lower-case hexadecimal digits |
| JsonText.StringifyIsJson | src/modules/ai/ai-evaluation.ts:93-100 | what is written for a value is a JSON text of it by the grammar of RFC 8259 |
| StableJson.StableEqualIffCanonicalEqual | src/modules/ai/ai-evaluation.ts:93-100 | equal texts mean equal values after sorting members |
| StableJson.StableIsInjective | src/modules/ai/ai-evaluation.ts:93-100 | equal texts mean equal up to member order, for any collation |
| StableJson.StableIgnoresOrderIff | src/modules/ai/ai-evaluation.ts:93-100 | the text is the same for every member order exactly if the collation tells the names of each object apart |
| StableJson.StableTextMeans | src/modules/ai/ai-evaluation.ts:93-100 | the canonical text is a JSON text of the same value with the names of every object in order |
| RowMatching.CountMatchingRows | src/modules/ai/ai-evaluation.ts:75-91 | the two loops compute the size of the multiset intersection of the row texts |
| RowMatching.MatchingIsSymmetric | src/modules/ai/ai-evaluation.ts:75-91 | expected and actual rows can be exchanged |
| RowMatching.MatchingIgnoresOrder | src/modules/ai/ai-evaluation.ts:75-91 | neither list's order matters |
| RowMatching.MatchingIsBounded | src/modules/ai/ai-evaluation.ts:75-91 | at most either length, and equal to both exactly for the same rows |
| RowMatching.PoolingTwoIff | src/modules/ai/ai-evaluation.ts:38-40 | pooled, two samples match no fewer rows than apart, and as many exactly if no row text lacks in one and is left over in the other |
| RowMatching.PoolingMatchesApartIff | src/modules/ai/ai-evaluation.ts:38-40 | so for any list of samples: never fewer, and as many exactly if no text lacks in one sample and is left over in another |
| RowMatching.PoolingCanMatchMore | src/modules/ai/ai-evaluation.ts:38-40 | two samples that match more when pooled |
| RowMatching.ScoresAreFractions | src/modules/ai/ai-evaluation.ts:102-104 | precision and recall are missing exactly without rows, and otherwise between 0 and 1 after rounding |
| RowMatching.RoundsToTheNearest | src/modules/ai/ai-evaluation.ts:126-128 | rounding is to the nearest hundredth, upwards from halfway |
| Percentile.PercentileIsMonotone | src/modules/ai/ai-evaluation.ts:112-120 | monotone in the quantile before and after rounding, so p50 is at most p95 |
| Percentile.PercentileIsWithin | src/modules/ai/ai-evaluation.ts:112-120 | between the least and the greatest value, reached at quantiles 0 and 1 |
| Percentile.PercentileIgnoresOrder | src/modules/ai/ai-evaluation.ts:112-120 | the order of observations does not matter |
| Percentile.InterpolatesInProportion | src/modules/ai/ai-evaluation.ts:112-120 | between two neighbouring observations the value grows in proportion to the way covered |
| Percentile.MedianIsTheMiddle | src/modules/ai/ai-evaluation.ts:112-120 | p50 is the middle observation, or the mean of the middle two |
| TokenStore.Table.RotateRefreshToken | src/modules/auth/auth.repository.ts:104-117 | revokes and replaces an unrevoked, unexpired row in one step, or changes nothing |
| TokenStore.Table.RevokeAllRefreshTokens | src/modules/auth/auth.repository.ts:119-127 | revokes exactly the user's unrevoked rows |
| TokenStore.Table.Refresh | src/modules/auth/auth.service.ts:147-190 | look-up on an earlier read, the error cases in order, then the rotation |
| TokenStore.Table.Logout | src/modules/auth/auth.service.ts:192-205 | everywhere without a token, otherwise the row found on an earlier read |
| RefreshTokens.OneTokenOneRefresh | src/modules/auth/auth.service.ts:147-190 | however many requests present one token, at most one obtains a new pair |
| RefreshTokens.ChainsAreLinear | src/modules/auth/auth.repository.ts:104-117 | in every interleaving a token has at most one successor, of the same user, and is revoked once it has one |
| RefreshTokens.OneActiveTokenPerChain | src/modules/auth/auth.repository.ts:104-117 | each login's chain has at most one unrevoked token |
| RefreshTokens.LogoutAllEndsEveryChain | src/modules/auth/auth.repository.ts:119-127 | after logging out everywhere no earlier chain has an active token again, whatever refresh was under way |
| RefreshTokens.LogoutRevokes | src/modules/auth/auth.service.ts:192-205 | a logout revokes the row with the presented hash if it was active when looked up, and else nothing |
| RefreshTokens.LogoutEndsChainIff | src/modules/auth/auth.service.ts:192-205 | over runs, with the look-up: a logout with a token ends its chain exactly if the token is not yet rotated when the logout commits, or the chain had ended |
| RefreshTokens.LogoutLeavesTheSuccessor | src/modules/auth/auth.service.ts:192-205 | runs in which the successor stays active: the token was refreshed before the look-up, or after it |
| RefreshTokens.RefreshIff | src/modules/auth/auth.service.ts:147-190 | exactly when a refresh succeeds, what it stores, and which error each failure gets |
| RefreshTokens.LogoutAllRevokes | src/modules/auth/auth.repository.ts:119-127 | logging out everywhere revokes exactly the user's unrevoked tokens |
| CriteriaValidation.ValidateNode | prisma/seeds/criteria/criteria.helpers.ts:167-180 | the recursive walk pushes exactly the specified problems |
| CriteriaValidation.ProblemsAreExact | prisma/seeds/criteria/criteria.helpers.ts:167-180 | a problem is reported exactly if the node its path leads to has it, at any depth |
| CriteriaValidation.NoProblemsIff | prisma/seeds/criteria/criteria.helpers.ts:167-180 | no problem exactly if every node of the tree is well formed |
| CriteriaValidation.ValidateSeedCriteria | prisma/seeds/criteria/criteria.helpers.ts:100-165 | the loops with their sets push exactly the specified problems, in order |
| CriteriaValidation.NoErrorsIffGood | prisma/seeds/criteria/criteria.helpers.ts:100-165 | no errors exactly if codes and keys are unique, metadata present, every rule good and all five criteria mandatory |
| SeedRules.TreeProblemIff | prisma/seeds/criteria/criteria.helpers.ts:167-180 | a problem of a tree is reported exactly if the node its place leads to has no children, asks for an impossible number of matches, or has no usable threshold |
| SeedRules.NoTreeProblemsIff | prisma/seeds/criteria/criteria.helpers.ts:167-180 | no problem exactly for trees whose combinations have children, whose minimums can be met and whose thresholds are not negative, at every depth |
| SeedRules.SeedProblemIff | prisma/seeds/criteria/criteria.helpers.ts:100-165 | sound and complete: each of the twelve kinds of problem is reported exactly if some configuration, rule or node has the fault it names |
| CriteriaSync.CriteriaTables.UpsertRules | prisma/seeds/criteria/seed-criteria.ts:63-106 | every rule of the configuration is stored as given and active |
| CriteriaSync.CriteriaTables.DeactivateOthers | prisma/seeds/criteria/seed-criteria.ts:108-116 | deactivates exactly the configuration's active rules the seed lacks, and counts them |
| CriteriaSync.CriteriaTables.SeedNormalizedCriteria | prisma/seeds/criteria/seed-criteria.ts:15-138 | refuses an invalid seed, rolls back on a missing workspace, otherwise synchronises all configurations |
| CriteriaSync.SyncSettlesAll | prisma/seeds/criteria/seed-criteria.ts:27-118 | after a sync the active rules of each configuration are exactly the seed's |
| CriteriaSync.SyncKeepsOtherRules | prisma/seeds/criteria/seed-criteria.ts:27-118 | no row is deleted and rules of other configurations are untouched |
| CriteriaSync.SecondSyncChangesNothing | prisma/seeds/criteria/seed-criteria.ts:27-118 | a second sync changes nothing and deactivates none |
| CriteriaSync.SyncsIff | prisma/seeds/criteria/seed-criteria.ts:15-45 | a sync of a valid seed goes through exactly if every workspace it names is there |
| CriteriaSync.SeedIsStored | prisma/seeds/criteria/seed-criteria.ts:27-118 | then every configuration is stored with its workspace and every rule as the seed has it, active, and no other rule of them is |
| CriteriaSync.DeactivatedAreCounted | prisma/seeds/criteria/seed-criteria.ts:108-118 | the number reported is the number of rules that were active before and are not afterwards |
| SubmissionSpread.SpreadIffWindowIsLongEnough | scripts/data-migrations/20261001-normalize-city-submissions-and-staff.ts:177-189 | the planned times pass exactly if the window has more milliseconds than there are applications; then they increase strictly, strictly between opening and now |
| SubmissionSpread.SpreadIsEven | scripts/data-migrations/20261001-normalize-city-submissions-and-staff.ts:177-189 | neighbouring times, and the two ends, lie an equal share of the window apart, to the millisecond |
| SubmissionSpread.AppliedIs | scripts/data-migrations/20261001-normalize-city-submissions-and-staff.ts:191-197 | an applied plan changes the time of each planned row to its own and nothing else |
| SubmissionSpread.SubmissionTable.Normalize | scripts/data-migrations/20261001-normalize-city-submissions-and-staff.ts:177-197 | applies the plan to every row or to none, and when it does |
| SubmissionSpread.ReadBackIsThePlan | scripts/data-migrations/20261001-normalize-city-submissions-and-staff.ts:253-274 | after the plan was applied, the rows read back by time, in any stored order, are the planned applications position by position, and the check by position passes exactly if no status has changed since they were read |

## Left out

- Routing, controllers, request schemas, middleware, notifications, mail, audit rows and logging.
- Retries of transactions and database isolation anomalies beyond reads made before the lock.
- Season windows, precheck scoring, the answers of the eligibility service during a submission, permissions on tasks and
  cases, and workspace access: parameters of the requests that use them, or refusals they do not show.
- Which officer a task is assigned to: assigning and reassigning change nothing else.
- Resolution cases themselves: a request to resolve one says whether others are open and what it leaves of the evidence.
- Collective profiles, whose tasks and evidence belong to no application.
- Deletion of applications, and the season exceptions and requirement responses stored beside them.
- Paging and filtering of preview rows and recipients.
- RosterJobs.RunIsSoundIff: assumes that uploads get identifiers the decision has not had.
- A transaction that takes no lock is one step too: interleavings of its single statements are not modelled.
- Evidence content, cards and processing beyond the fields that gate a resubmission.
- AggregateRuns.TasksAreCreatedOnce: says nothing of runs with a committed repair of missing tasks; RepairRuns covers those.
- DecisionRuns.CityFinalizationAddsOneDecision: only individual City applications, because for others the code lets a
  second finalization replace the first.
- Parsing of roster files, the suggested column mapping, and text and date cleaning of cells beyond what decides a
  row's status. When a worker takes a job, and how often it is tried, are parameters.
- Text normalisation, upper-casing and case-insensitive search are unknown functions; SHA-256 is assumed to tell texts
  apart and to give a text that is not empty.
- Dafny characters are code points, so a comparison of strings may order supplementary characters differently from
  UTF-16 code units; the results need only that the order is total. Lone surrogates are not strings here.
- Numbers in JSON stand as their text; `undefined` inside evaluated values is not modelled.
- Floating-point rounding: percentiles and ratios are over the reals, the migration's arithmetic over integers.
- The option lists of the City summary and the order of its entries.
- The counts the seed validator returns beside its errors, and the exact wording of messages.
- The staff changes and the fixed counts the migration expects.
- Access tokens, passwords, and the removal of expired token rows.
