/** The application aggregate (one application row with its snapshots, review tasks, supplement
    requests, evidence and final-decision history) and the effect of every request on it.

    A request reads the aggregate without a lock once or twice, and later commits under the row
    lock. Each request is therefore a function of what it read (`first`, `second`), the aggregate
    at the time the lock is held (`cur`) and the clock, and returns the aggregate after its
    transaction together with the error it answers with, if any. */
module Aggregate {
  import opened ReviewTypes

  // ---------- Rows ----------

  datatype Stamp = Stamp(at: Time, who: Id, reason: Option<string>)

  datatype FinalDecision = FinalDecision(
    status: FinalStatus, level: Option<Level>, note: Option<string>, at: Option<Time>, who: Option<Id>)

  const NO_DECISION := FinalDecision(FinalStatus.Pending, None, None, None, None)

  datatype Row = Row(
    studentId: Id, appType: AppType, targetLevel: Level, status: AppStatus, version: nat,
    submittedAt: Option<Time>, final: FinalDecision,
    cancelled: Option<Stamp>, archived: Option<Stamp>, updatedAt: Time)

  datatype SnapshotContent =
    | InitialDraft(level: Level)
    | DraftSave(chosen: Option<Level>)
    | LevelChange(level: Level, previous: Level)
    | Submission(at: Time, level: Level)

  datatype Snapshot = Snapshot(version: nat, author: Id, content: SnapshotContent)

  datatype RequestStatus = Active | Resubmitted | Closed

  datatype HistoryAction = LegacyMigrated | StudentResubmitted | OfficerCreated | OfficerUpdated

  datatype HistoryItem = HistoryItem(at: Time, who: Id, action: HistoryAction)

  datatype SupplementRequest = SupplementRequest(
    status: RequestStatus, message: string, resubmittedAt: Option<Time>, closedAt: Option<Time>,
    history: seq<HistoryItem>)

  datatype Decision = Accept | Reject | AskSupplement | Escalate

  /** The officer's part of a review task: what a resubmission clears. */
  datatype Verdict = Verdict(
    decision: Option<Decision>, officerNote: Option<string>, suggestedLevel: Option<Level>,
    assessment: Option<string>, reason: Option<string>)

  const NO_VERDICT := Verdict(None, None, None, None, None)

  /** `requests` lists the task's supplement requests newest first; `links` the linked evidence. */
  datatype Task = Task(
    criterion: Criterion, status: TaskStatus, verdict: Verdict, dueDate: Option<Time>,
    legacyReason: Option<string>, requests: seq<SupplementRequest>, links: set<Id>)

  datatype Confirmation = PendingConfirmation | CorrectionRequired | Confirmed | NotRequired

  datatype Card = Card(requiresHuman: bool, confirmation: Option<Confirmation>)

  datatype Evidence = Evidence(
    id: Id, criterion: Criterion, status: EvidenceStatus, indexing: IndexingStatus, card: Option<Card>)

  datatype Superseded = Superseded(decision: FinalDecision, at: Time, who: Id, reason: string)

  datatype Verification = Verification(approved: bool, basisHash: string, who: Id, at: Time)

  /** A review task is identified by its position in `tasks`: tasks are only ever appended. */
  datatype App = App(
    row: Row, snapshots: seq<Snapshot>, tasks: seq<Task>, evidences: seq<Evidence>,
    finalHistory: seq<Superseded>, verification: Option<Verification>)

  datatype ErrorCode =
    | NotFound | Forbidden | OwnerRequired | ApplicationCancelled | ApplicationLocked | AlreadyProcessed
    | NotSubmittable | NotEligible | VerificationNotRequired | WindowClosed | NotReady | FinalExists | InvalidStatus

  datatype Outcome = Outcome(app: App, error: Option<ErrorCode>)

  function Refuse(cur: App, code: ErrorCode): Outcome { Outcome(cur, Some(code)) }

  function Commit(app: App): Outcome { Outcome(app, None) }

  // ---------- Shared checks ----------

  predicate Owns(actor: Actor, row: Row) { actor.role.Admin? || row.studentId == actor.id }

  /** The four statuses in which a draft may still be written or submitted. */
  predicate Editable(status: AppStatus) {
    status in {AppStatus.Draft, AppStatus.Prechecked, AppStatus.ReadyToSubmit, AppStatus.SupplementRequired}
  }

  predicate IndividualCity(row: Row) { row.appType.Individual? && row.targetLevel.City? }

  predicate HasCurrentFinal(row: Row) { row.final.at.Some? || !row.final.status.Pending? }

  predicate Terminal(status: AppStatus) { status.Completed? || status.Rejected? }

  predicate HasSupplementTask(tasks: seq<Task>) {
    exists i :: 0 <= i < |tasks| && tasks[i].status.SupplementRequired?
  }

  function EvidenceIds(evidences: seq<Evidence>, criterion: Criterion): set<Id> {
    set i | 0 <= i < |evidences| && evidences[i].criterion == criterion :: evidences[i].id
  }

  predicate HasEvidence(evidences: seq<Evidence>, criterion: Criterion) {
    exists i :: 0 <= i < |evidences| && evidences[i].criterion == criterion
  }

  // ---------- Draft writes ----------

  function Start(student: Id, now: Time): App {
    App(Row(student, AppType.Individual, Level.City, AppStatus.Draft, 1, None, NO_DECISION, None, None, now),
        [Snapshot(1, student, InitialDraft(Level.City))], [], [], [], None)
  }

  /** The common commit of the two draft writes: lock, compare status and version, bump. */
  function DraftCommit(actor: Actor, read: Row, cur: App, level: Option<Level>, content: SnapshotContent, now: Time)
    : Outcome
  {
    if cur.row.cancelled.Some? then Refuse(cur, ErrorCode.ApplicationCancelled)
    else if !Editable(cur.row.status) || cur.row.version != read.version then Refuse(cur, ErrorCode.ApplicationLocked)
    else
      var level' := if level.Some? then level.value else cur.row.targetLevel;
      Commit(cur.(row := cur.row.(targetLevel := level', version := read.version + 1, updatedAt := now),
                  snapshots := cur.snapshots + [Snapshot(read.version + 1, actor.id, content)]))
  }

  /** What the unlocked read of a draft write is checked for; `changesLevel` is refused to students. */
  function DraftGate(actor: Actor, read: Row, changesLevel: bool): Option<ErrorCode> {
    if !Owns(actor, read) then Some(ErrorCode.OwnerRequired)
    else if read.cancelled.Some? then Some(ErrorCode.ApplicationCancelled)
    else if actor.role.Student? && changesLevel then Some(ErrorCode.Forbidden)
    else if !Editable(read.status) then Some(ErrorCode.ApplicationLocked)
    else None
  }

  function UpdateTargetLevel(actor: Actor, level: Level, now: Time, first: App, cur: App): Outcome {
    var gate := DraftGate(actor, first.row, true);
    if gate.Some? then Refuse(cur, gate.value)
    else DraftCommit(actor, first.row, cur, Some(level), LevelChange(level, first.row.targetLevel), now)
  }

  function AutosaveDraft(actor: Actor, level: Option<Level>, now: Time, first: App, cur: App): Outcome {
    var gate := DraftGate(actor, first.row, level.Some?);
    if gate.Some? then Refuse(cur, gate.value)
    else DraftCommit(actor, first.row, cur, level, DraftSave(level), now)
  }

  // ---------- Submit ----------

  /** `prepared` is a precheck computed for this submission and still to be stored: the status the
      preparation read, and whether it found the application ready. */
  datatype Prepared = Prepared(readStatus: AppStatus, ready: bool)

  /** What a submission learns from code outside the aggregate. */
  datatype SubmitContext = SubmitContext(
    allowWarnings: bool, hasWarnings: bool, eligibleAtRead: bool, windowOpenAtRead: bool,
    eligibleInTx: bool, windowOpenInTx: bool, prepared: Option<Prepared>, priorityFound: bool)

  predicate InitialCitySubmission(actor: Actor, row: Row) {
    actor.role.Student? && IndividualCity(row) && (!row.status.SupplementRequired? || row.submittedAt.None?)
  }

  predicate InitialCityWindow(row: Row) {
    IndividualCity(row) && (!row.status.SupplementRequired? || row.submittedAt.None?)
  }

  predicate Processing(e: Evidence) {
    e.status.PendingIndexing? || ActiveProcessing(e.indexing)
  }

  predicate ActiveProcessing(s: IndexingStatus) {
    s.PendingIndexing? || s.OcrProcessing? || s.Extracting? || s.CheckingRegistry?
  }

  function NextPrecheckStatus(readStatus: AppStatus, ready: bool): Option<AppStatus> {
    if readStatus.Draft? || readStatus.Prechecked? || readStatus.ReadyToSubmit?
    then Some(if ready then AppStatus.ReadyToSubmit else AppStatus.Prechecked)
    else None
  }

  function StorePrecheck(row: Row, readStatus: AppStatus, ready: bool, now: Time): Row {
    var next := NextPrecheckStatus(readStatus, ready);
    row.(status := if next.Some? then next.value else row.status, updatedAt := now)
  }

  /** Everything `submit` checks before it opens its transaction. */
  function SubmitGate(actor: Actor, ctx: SubmitContext, first: App, second: App): Option<ErrorCode> {
    var initial := InitialCitySubmission(actor, first.row);
    if !Owns(actor, first.row) then Some(ErrorCode.OwnerRequired)
    else if first.row.cancelled.Some? then Some(ErrorCode.ApplicationCancelled)
    else if !Editable(first.row.status) then
      Some(if |first.tasks| > 0 then ErrorCode.AlreadyProcessed else ErrorCode.NotSubmittable)
    else if actor.role.Student? && !first.row.targetLevel.City? then Some(ErrorCode.NotSubmittable)
    else if initial && !ctx.eligibleAtRead then Some(ErrorCode.NotEligible)
    else if IndividualCity(first.row) && !ctx.windowOpenAtRead then Some(ErrorCode.WindowClosed)
    else if !initial && exists i :: 0 <= i < |first.evidences| && Processing(first.evidences[i]) then
      Some(ErrorCode.NotReady)
    else if ctx.hasWarnings && !ctx.allowWarnings && !initial then Some(ErrorCode.NotReady)
    else if second.row.appType != first.row.appType
            || second.row.targetLevel != first.row.targetLevel
            || second.row.version != first.row.version
            || second.row.submittedAt != first.row.submittedAt
            || (InitialCityWindow(first.row) && second.row.updatedAt != first.row.updatedAt)
            || !Editable(second.row.status) then Some(ErrorCode.ApplicationLocked)
    else None
  }

  predicate SupplementResubmission(second: Row) {
    second.status.SupplementRequired? && second.submittedAt.Some?
  }

  function SubmitCriteria(evidences: seq<Evidence>, priorityFound: bool, includePriority: bool): seq<Criterion> {
    if includePriority
       && (HasEvidence(evidences, Criterion.Priority) || priorityFound)
    then CORE_CRITERIA + [Criterion.Priority]
    else CORE_CRITERIA
  }

  function FreshTask(criterion: Criterion, evidences: seq<Evidence>): Task {
    Task(criterion, TaskStatus.Waiting, NO_VERDICT, None, None, [], EvidenceIds(evidences, criterion))
  }

  function FreshTasks(criteria: seq<Criterion>, evidences: seq<Evidence>): (tasks: seq<Task>)
    ensures |tasks| == |criteria|
  {
    seq(|criteria|, i requires 0 <= i < |criteria| => FreshTask(criteria[i], evidences))
  }

  function MarkResubmitted(request: SupplementRequest, who: Id, now: Time): SupplementRequest {
    request.(status := RequestStatus.Resubmitted, resubmittedAt := Some(now),
             history := request.history + [HistoryItem(now, who, StudentResubmitted)])
  }

  function MarkActive(requests: seq<SupplementRequest>, who: Id, now: Time): (marked: seq<SupplementRequest>)
    ensures |marked| == |requests|
  {
    seq(|requests|, i requires 0 <= i < |requests| =>
      if requests[i].status.Active? then MarkResubmitted(requests[i], who, now) else requests[i])
  }

  /** One review task under a generic resubmission. `read` is the task as the submission read it,
      if it existed then: only tasks read as awaiting a supplement get their evidence linked and
      their requests marked, while every task awaiting a supplement now goes back to waiting. */
  function GenericTask(task: Task, read: Option<Task>, evidences: seq<Evidence>, who: Id, now: Time): Task {
    var listed := read.Some? && read.value.status.SupplementRequired?;
    var linked := if listed then task.(links := task.links + EvidenceIds(evidences, task.criterion),
                                       requests := MarkActive(task.requests, who, now)) else task;
    if task.status.SupplementRequired?
    then linked.(status := TaskStatus.Waiting, verdict := NO_VERDICT)
    else linked
  }

  function GenericTasks(tasks: seq<Task>, read: seq<Task>, evidences: seq<Evidence>, who: Id, now: Time)
    : (result: seq<Task>)
    ensures |result| == |tasks|
  {
    seq(|tasks|, i requires 0 <= i < |tasks| =>
      GenericTask(tasks[i], if i < |read| then Some(read[i]) else None, evidences, who, now))
  }

  /** Whether a resubmission moves evidence in this status back to review. */
  predicate Movable(s: EvidenceStatus) {
    s.Draft? || s.PendingIndexing? || s.Indexed? || s.NeedsSupplement?
  }

  function MoveEvidence(evidences: seq<Evidence>, criteria: set<Criterion>): (moved: seq<Evidence>)
    ensures |moved| == |evidences|
  {
    seq(|evidences|, i requires 0 <= i < |evidences| =>
      if evidences[i].criterion in criteria && Movable(evidences[i].status)
      then evidences[i].(status := EvidenceStatus.UnderReview)
      else evidences[i])
  }

  function SupplementCriteria(tasks: seq<Task>): set<Criterion> {
    set i | 0 <= i < |tasks| && tasks[i].status.SupplementRequired? :: tasks[i].criterion
  }

  /** What a submission that passed every check writes. */
  function SubmittedApp(actor: Actor, ctx: SubmitContext, now: Time, first: App, second: App, cur: App): App {
    var version := first.row.version + 1;
    var submittedAt := if first.row.submittedAt.Some? then first.row.submittedAt else Some(now);
    var resubmits := SupplementResubmission(second.row) && HasSupplementTask(first.tasks);
    cur.(
      row := cur.row.(status := AppStatus.UnderReview, submittedAt := submittedAt, version := version,
                      updatedAt := now),
      snapshots := cur.snapshots + [Snapshot(version, actor.id, Submission(now, first.row.targetLevel))],
      tasks := if first.tasks == [] then
                 cur.tasks + FreshTasks(SubmitCriteria(first.evidences, ctx.priorityFound, !IndividualCity(first.row)),
                                        first.evidences)
               else if resubmits then GenericTasks(cur.tasks, first.tasks, first.evidences, actor.id, now)
               else cur.tasks,
      evidences := if resubmits then MoveEvidence(cur.evidences, SupplementCriteria(first.tasks)) else cur.evidences)
  }

  function SubmitCommit(actor: Actor, ctx: SubmitContext, now: Time, first: App, second: App, cur: App): Outcome {
    var windowed := IndividualCity(first.row);
    var initial := InitialCitySubmission(actor, first.row);
    if cur.row.cancelled.Some? then Refuse(cur, ErrorCode.ApplicationCancelled)
    else if windowed && !SameSubmissionState(first.row, second.row, cur.row) then
      Refuse(cur, ErrorCode.ApplicationLocked)
    else if initial && !ctx.eligibleInTx then Refuse(cur, ErrorCode.NotEligible)
    else if windowed && (InitialCityWindow(first.row) || SupplementResubmission(second.row)) && !ctx.windowOpenInTx then
      Refuse(cur, ErrorCode.WindowClosed)
    else
      var stored := initial && ctx.prepared.Some?;
      var row := if stored then StorePrecheck(cur.row, ctx.prepared.value.readStatus, ctx.prepared.value.ready, now)
                 else cur.row;
      var status := if stored then row.status else second.row.status;
      var updatedAt := if stored then row.updatedAt else second.row.updatedAt;
      if windowed && ctx.hasWarnings && !ctx.allowWarnings then
        Outcome(cur.(row := row), Some(ErrorCode.NotReady))
      else if row.status != status || row.targetLevel != second.row.targetLevel
              || row.version != second.row.version || row.submittedAt != second.row.submittedAt
              || row.updatedAt != updatedAt then
        Refuse(cur, ErrorCode.ApplicationLocked)
      else
        Commit(SubmittedApp(actor, ctx, now, first, second, cur.(row := row)))
  }

  /** The locking read of a City submission: the row must still be the one the submission read. */
  predicate SameSubmissionState(first: Row, second: Row, cur: Row) {
    && cur.studentId == first.studentId
    && cur.appType == second.appType
    && cur.targetLevel == second.targetLevel
    && cur.status == second.status
    && cur.submittedAt == second.submittedAt
    && cur.version == second.version
    && cur.updatedAt == second.updatedAt
  }

  function Submit(actor: Actor, ctx: SubmitContext, now: Time, first: App, second: App, cur: App): Outcome {
    var gate := SubmitGate(actor, ctx, first, second);
    if gate.Some? then Refuse(cur, gate.value) else SubmitCommit(actor, ctx, now, first, second, cur)
  }

  function ReopenSupplement(actor: Actor, now: Time, first: App, cur: App): Outcome {
    if !(actor.role.Manager? || actor.role.CityManager? || actor.role.Admin?) then Refuse(cur, ErrorCode.Forbidden)
    else if IndividualCity(first.row) && !(actor.role.CityManager? || actor.role.Admin?) then
      Refuse(cur, ErrorCode.Forbidden)
    else if first.row.cancelled.Some? || cur.row.cancelled.Some? then Refuse(cur, ErrorCode.ApplicationCancelled)
    else Commit(cur.(row := cur.row.(status := AppStatus.SupplementRequired, updatedAt := now)))
  }

  // ---------- Lifecycle ----------

  /** The scope check shared by the four lifecycle actions, on an unlocked read. */
  function LifecycleGate(actor: Actor, first: App): Option<ErrorCode> {
    if !(actor.role.CityManager? || actor.role.Admin?) then Some(ErrorCode.Forbidden)
    else if !IndividualCity(first.row) then Some(ErrorCode.NotFound)
    else None
  }

  function Cancel(actor: Actor, reason: string, now: Time, first: App, cur: App): Outcome {
    var gate := LifecycleGate(actor, first);
    if gate.Some? then Refuse(cur, gate.value)
    else if cur.row.cancelled.Some? then Refuse(cur, ErrorCode.ApplicationLocked)
    else if cur.row.submittedAt.None? && !HasCurrentFinal(cur.row) then Refuse(cur, ErrorCode.ApplicationLocked)
    else
      var hasFinal := HasCurrentFinal(cur.row);
      Commit(cur.(
        row := cur.row.(final := if hasFinal then NO_DECISION else cur.row.final,
                        cancelled := Some(Stamp(now, actor.id, Some(reason))), updatedAt := now),
        finalHistory := if hasFinal then cur.finalHistory + [Superseded(cur.row.final, now, actor.id, reason)]
                        else cur.finalHistory))
  }

  /** An unanswered request counts even on a task that is no longer awaiting a supplement. */
  predicate HasOpenRequest(tasks: seq<Task>) {
    exists i, j :: 0 <= i < |tasks| && 0 <= j < |tasks[i].requests| && Unanswered(tasks[i].requests[j])
  }

  predicate Unanswered(request: SupplementRequest) {
    request.status.Active? && request.closedAt.None? && request.resubmittedAt.None?
  }

  function ReopenCancelled(actor: Actor, now: Time, first: App, cur: App): Outcome {
    var gate := LifecycleGate(actor, first);
    if gate.Some? then Refuse(cur, gate.value)
    else if cur.row.cancelled.None? then Refuse(cur, ErrorCode.ApplicationLocked)
    else
      var status := if Terminal(cur.row.status) && |cur.finalHistory| > 0 then
                      (if HasSupplementTask(cur.tasks) || HasOpenRequest(cur.tasks)
                       then AppStatus.SupplementRequired else AppStatus.UnderReview)
                    else cur.row.status;
      Commit(cur.(row := cur.row.(status := status, cancelled := None, archived := None, updatedAt := now)))
  }

  function Archive(actor: Actor, reason: Option<string>, now: Time, first: App, cur: App): Outcome {
    var gate := LifecycleGate(actor, first);
    if gate.Some? then Refuse(cur, gate.value)
    else if cur.row.archived.Some? then Refuse(cur, ErrorCode.ApplicationLocked)
    else if !Terminal(cur.row.status) && cur.row.cancelled.None? then Refuse(cur, ErrorCode.ApplicationLocked)
    else Commit(cur.(row := cur.row.(archived := Some(Stamp(now, actor.id, reason)), updatedAt := now)))
  }

  function Unarchive(actor: Actor, now: Time, first: App, cur: App): Outcome {
    var gate := LifecycleGate(actor, first);
    if gate.Some? then Refuse(cur, gate.value)
    else if cur.row.archived.None? then Refuse(cur, ErrorCode.ApplicationLocked)
    else Commit(cur.(row := cur.row.(archived := None, updatedAt := now)))
  }

  // ---------- Eligibility verdict ----------

  predicate BeforeInitialSubmission(row: Row) { row.submittedAt.None? && Editable(row.status) }

  /** `basisHash` and `needsVerification` are computed from the unlocked read. */
  function VerifyEligibility(
    actor: Actor, approved: bool, basisHash: string, needsVerification: bool, now: Time, first: App, cur: App)
    : Outcome
  {
    if !actor.role.CityManager? then Refuse(cur, ErrorCode.Forbidden)
    else if !IndividualCity(first.row) then Refuse(cur, ErrorCode.NotFound)
    else if !BeforeInitialSubmission(first.row) then Refuse(cur, ErrorCode.ApplicationLocked)
    else if !needsVerification then Refuse(cur, ErrorCode.VerificationNotRequired)
    else if cur.row.cancelled.Some? then Refuse(cur, ErrorCode.ApplicationCancelled)
    else if !IndividualCity(cur.row) || !BeforeInitialSubmission(cur.row) then Refuse(cur, ErrorCode.ApplicationLocked)
    else
      var decidedAt := if now > cur.row.updatedAt then now else cur.row.updatedAt + 1;
      Commit(cur.(row := cur.row.(updatedAt := decidedAt),
                  verification := Some(Verification(approved, basisHash, actor.id, decidedAt))))
  }

  // ---------- Per-task resubmission ----------

  /** The newest active request of the task. */
  function ActiveIndex(requests: seq<SupplementRequest>): (k: Option<nat>)
    ensures k.Some? ==> k.value < |requests| && requests[k.value].status.Active?
    ensures k.Some? ==> forall j :: 0 <= j < k.value ==> !requests[j].status.Active?
    ensures k.None? ==> forall j :: 0 <= j < |requests| ==> !requests[j].status.Active?
  {
    if requests == [] then None
    else if requests[0].status.Active? then Some(0)
    else
      var rest := ActiveIndex(requests[1..]);
      assert forall j :: 1 <= j < |requests| ==> requests[j] == requests[1..][j - 1];
      if rest.Some? then Some(rest.value + 1) else None
  }

  /** The message of a supplement asked for before requests were stored as rows. */
  function LegacyMessage(task: Task): Option<string> {
    var reason := if task.legacyReason.Some? then task.legacyReason else task.verdict.officerNote;
    if reason.Some? && reason.value != "" then reason else None
  }

  predicate BlocksResubmission(e: Evidence) {
    e.card.Some? && (e.card.value.requiresHuman
                     || e.card.value.confirmation == Some(PendingConfirmation)
                     || e.card.value.confirmation == Some(CorrectionRequired))
  }

  /** `evaluateSupplementReadiness`: what the evidence of the task's criterion must look like. */
  predicate ReadyToResubmit(app: App, t: nat, now: Time)
    requires t < |app.tasks|
  {
    var task := app.tasks[t];
    && app.row.status.SupplementRequired?
    && (forall i :: 0 <= i < |app.evidences| && app.evidences[i].criterion == task.criterion ==>
          !ActiveProcessing(app.evidences[i].indexing) && !BlocksResubmission(app.evidences[i]))
    && (exists i :: 0 <= i < |app.evidences| && app.evidences[i].criterion == task.criterion
                    && (app.evidences[i].status.Indexed? || app.evidences[i].status.NeedsSupplement?
                        || app.evidences[i].status.UnderReview?))
    && (task.dueDate.Some? ==> now <= task.dueDate.value)
  }

  /** The requests of a task after it is resubmitted; a legacy supplement first becomes a row. */
  function ResubmittedRequests(task: Task, who: Id, now: Time): (result: Option<seq<SupplementRequest>>) {
    var k := ActiveIndex(task.requests);
    if k.Some? then Some(task.requests[k.value := MarkResubmitted(task.requests[k.value], who, now)])
    else
      var legacy := LegacyMessage(task);
      if legacy.None? then None
      else
        var created := SupplementRequest(RequestStatus.Active, legacy.value, None, None,
                                         [HistoryItem(now, who, LegacyMigrated)]);
        Some([MarkResubmitted(created, who, now)] + task.requests)
  }

  function ResubmittedTask(task: Task, evidences: seq<Evidence>, who: Id, now: Time): Task
    requires ResubmittedRequests(task, who, now).Some?
  {
    task.(status := TaskStatus.Waiting, verdict := NO_VERDICT,
          links := task.links + EvidenceIds(evidences, task.criterion),
          requests := ResubmittedRequests(task, who, now).value)
  }

  function Resubmit(actor: Actor, t: nat, deadlineOpen: bool, now: Time, first: App, cur: App): Outcome {
    if !actor.role.Student? then Refuse(cur, ErrorCode.Forbidden)
    else if t >= |first.tasks| || first.row.studentId != actor.id || !first.tasks[t].status.SupplementRequired? then
      Refuse(cur, ErrorCode.NotFound)
    else if first.row.cancelled.Some? || cur.row.cancelled.Some? then Refuse(cur, ErrorCode.ApplicationCancelled)
    else if t >= |cur.tasks| || cur.row.studentId != actor.id || !cur.tasks[t].status.SupplementRequired? then
      Refuse(cur, ErrorCode.NotFound)
    else if !cur.row.targetLevel.City? then Refuse(cur, ErrorCode.NotSubmittable)
    else if ResubmittedRequests(cur.tasks[t], actor.id, now).None? then Refuse(cur, ErrorCode.NotFound)
    else if IndividualCity(cur.row) && !deadlineOpen then Refuse(cur, ErrorCode.WindowClosed)
    else if !ReadyToResubmit(cur, t, now) then Refuse(cur, ErrorCode.NotReady)
    else
      var tasks := cur.tasks[t := ResubmittedTask(cur.tasks[t], cur.evidences, actor.id, now)];
      var status := if HasSupplementTask(tasks) then AppStatus.SupplementRequired else AppStatus.UnderReview;
      Commit(cur.(row := cur.row.(status := status, updatedAt := now), tasks := tasks,
                  evidences := MoveEvidence(cur.evidences, {cur.tasks[t].criterion})))
  }

  // ---------- The surrounding workflow ----------

  /** A precheck stores its result with no lock and no check of what changed since it read. */
  function Precheck(ready: bool, now: Time, first: App, cur: App): Outcome {
    Commit(cur.(row := StorePrecheck(cur.row, first.row.status, ready, now)))
  }

  /** Uploads and edits of evidence by hand take the same row lock. */
  function ChangeEvidence(evidences: seq<Evidence>, cur: App): Outcome {
    if cur.row.cancelled.Some? then Refuse(cur, ErrorCode.ApplicationCancelled)
    else Commit(cur.(evidences := evidences))
  }

  function Finalize(actor: Actor, status: FinalStatus, level: Option<Level>, note: Option<string>, now: Time,
                    first: App, cur: App): Outcome
  {
    if first.row.cancelled.Some? then Refuse(cur, ErrorCode.ApplicationCancelled)
    else if status.Pending? || HasCurrentFinal(first.row) then Refuse(cur, ErrorCode.FinalExists)
    else if cur.row.cancelled.Some? then Refuse(cur, ErrorCode.ApplicationCancelled)
    else if IndividualCity(first.row) && HasCurrentFinal(cur.row) then Refuse(cur, ErrorCode.FinalExists)
    else
      var level' := if status.Failed? then None else level;
      Commit(cur.(row := cur.row.(status := if status.Failed? then AppStatus.Rejected else AppStatus.Completed,
                                  final := FinalDecision(status, level', note, Some(now), Some(actor.id)),
                                  updatedAt := now)))
  }

  function DecidedStatus(decision: Decision): TaskStatus {
    match decision
    case Accept => TaskStatus.Accepted
    case Reject => TaskStatus.Rejected
    case AskSupplement => TaskStatus.SupplementRequired
    case Escalate => TaskStatus.ResolutionNeeded
  }

  const AUTO_CLOSED := "Auto-closed after at least one review criterion was rejected."

  /** The application status and final decision a set of review tasks leads to. */
  function SyncOutcome(row: Row, tasks: seq<Task>, cityIndividual: bool, now: Time): Row {
    if tasks == [] then row
    else if HasSupplementTask(tasks) then row.(status := AppStatus.SupplementRequired, final := NO_DECISION)
    else if exists i :: 0 <= i < |tasks| && tasks[i].status.ResolutionNeeded? then
      row.(status := AppStatus.ResolutionNeeded, final := NO_DECISION)
    else if (exists i :: 0 <= i < |tasks| && (tasks[i].status.Waiting? || tasks[i].status.Reviewing?))
            || (forall i :: 0 <= i < |tasks| ==> tasks[i].status.Accepted?)
            || cityIndividual then
      row.(status := AppStatus.UnderReview, final := NO_DECISION)
    else
      row.(status := AppStatus.Rejected,
           final := FinalDecision(FinalStatus.Failed, None,
                                  Some(AUTO_CLOSED), Some(now), row.final.who))
  }

  /** An officer decides a task; a supplement is recorded on the newest active request or a new one. */
  function DecidedTask(task: Task, who: Id, decision: Decision, verdict: Verdict, dueDate: Option<Time>,
                       message: string, now: Time): Task
  {
    var decided := task.(status := DecidedStatus(decision), verdict := verdict);
    if !decision.AskSupplement? then decided
    else
      var k := ActiveIndex(task.requests);
      var requests :=
        if k.Some? then
          var r := task.requests[k.value];
          task.requests[k.value := r.(message := message,
                                      history := r.history + [HistoryItem(now, who, OfficerUpdated)])]
        else
          [SupplementRequest(RequestStatus.Active, message, None, None, [HistoryItem(now, who, OfficerCreated)])]
          + task.requests;
      decided.(requests := requests, legacyReason := Some(message),
               dueDate := if dueDate.Some? then dueDate else task.dueDate)
  }

  function OfficerDecides(actor: Actor, t: nat, decision: Decision, verdict: Verdict, dueDate: Option<Time>,
                          message: string, evidences: seq<Evidence>, now: Time, first: App, cur: App): Outcome
  {
    if cur.row.cancelled.Some? then Refuse(cur, ErrorCode.ApplicationCancelled)
    else if t >= |first.tasks| || t >= |cur.tasks| then Refuse(cur, ErrorCode.NotFound)
    else if (first.tasks[t].status.Accepted? || first.tasks[t].status.Rejected?)
            && !(actor.role.Manager? || actor.role.CityManager? || actor.role.Admin?) then
      Refuse(cur, ErrorCode.AlreadyProcessed)
    else if IndividualCity(first.row)
            && (first.tasks[t].status != cur.tasks[t].status
                || first.tasks[t].verdict.decision != cur.tasks[t].verdict.decision) then
      Refuse(cur, ErrorCode.AlreadyProcessed)
    else
      var tasks := cur.tasks[t := DecidedTask(cur.tasks[t], actor.id, decision, verdict, dueDate, message, now)];
      Commit(cur.(row := SyncOutcome(cur.row, tasks, IndividualCity(first.row), now).(updatedAt := now),
                  tasks := tasks, evidences := evidences))
  }

  /** The manager's repair action: one task for each missing criterion, decided under the lock. */
  function MissingCriteria(criteria: seq<Criterion>, tasks: seq<Task>): seq<Criterion> {
    if criteria == [] then []
    else
      var rest := MissingCriteria(criteria[1..], tasks);
      if exists i :: 0 <= i < |tasks| && tasks[i].criterion == criteria[0] then rest else [criteria[0]] + rest
  }

  function EnsuredCriteria(first: App): seq<Criterion> {
    if IndividualCity(first.row) then CORE_CRITERIA
    else CORE_CRITERIA
         + (if HasEvidence(first.evidences, Criterion.Priority) then [Criterion.Priority] else [])
         + (if HasEvidence(first.evidences, Criterion.Collective) then [Criterion.Collective] else [])
  }

  function EnsureTasks(now: Time, first: App, cur: App): Outcome {
    if !(first.row.status.Submitted? || first.row.status.UnderReview?
         || first.row.status.SupplementRequired? || first.row.status.ResolutionNeeded?) then
      Refuse(cur, ErrorCode.InvalidStatus)
    else if cur.row.cancelled.Some? then Refuse(cur, ErrorCode.ApplicationCancelled)
    else
      Commit(cur.(
        row := if first.row.status.Submitted? then cur.row.(status := AppStatus.UnderReview, updatedAt := now)
               else cur.row,
        tasks := cur.tasks + FreshTasks(MissingCriteria(EnsuredCriteria(first), cur.tasks), first.evidences)))
  }

  // ---------- Aggregating, claiming and reopening ----------

  predicate AllAccepted(tasks: seq<Task>) { forall i :: 0 <= i < |tasks| ==> tasks[i].status.Accepted? }

  /** `suggestApplicationStatus`. */
  function SuggestedStatus(tasks: seq<Task>): AppStatus {
    if tasks == [] then AppStatus.UnderReview
    else if HasSupplementTask(tasks) then AppStatus.SupplementRequired
    else if exists i :: 0 <= i < |tasks| && tasks[i].status.ResolutionNeeded? then AppStatus.ResolutionNeeded
    else if exists i :: 0 <= i < |tasks| && (tasks[i].status.Waiting? || tasks[i].status.Reviewing?) then
      AppStatus.UnderReview
    else if AllAccepted(tasks) then AppStatus.Completed
    else AppStatus.UnderReview
  }

  /** A manager's aggregation stores the status the tasks it read before the lock suggest, and no decision. */
  function AggregateReview(actor: Actor, now: Time, first: App, cur: App): Outcome {
    if actor.role.Student? || actor.role.Officer? then Refuse(cur, ErrorCode.Forbidden)
    else if IndividualCity(first.row) && !(actor.role.CityManager? || actor.role.Admin?) then
      Refuse(cur, ErrorCode.Forbidden)
    else if cur.row.cancelled.Some? then Refuse(cur, ErrorCode.ApplicationCancelled)
    else Commit(cur.(row := cur.row.(status := SuggestedStatus(first.tasks), updatedAt := now)))
  }

  /** An officer claims an unassigned task, which must be as it was read. */
  function Claim(t: nat, first: App, cur: App): Outcome {
    if t >= |first.tasks| || t >= |cur.tasks| then Refuse(cur, ErrorCode.NotFound)
    else if cur.row.cancelled.Some? then Refuse(cur, ErrorCode.ApplicationCancelled)
    else if cur.tasks[t].status != first.tasks[t].status || cur.tasks[t].verdict.decision.Some? then
      Refuse(cur, ErrorCode.AlreadyProcessed)
    else if cur.tasks[t].status.Waiting? then
      Commit(cur.(tasks := cur.tasks[t := cur.tasks[t].(status := TaskStatus.Reviewing)]))
    else Commit(cur)
  }

  /** Reopening a final result moves a current decision to the history; what is not closed stays as it is. */
  function ReopenFinal(actor: Actor, reason: string, toSupplement: bool, now: Time, first: App, cur: App): Outcome {
    if IndividualCity(first.row) && !(actor.role.CityManager? || actor.role.CityCommittee? || actor.role.Admin?) then
      Refuse(cur, ErrorCode.Forbidden)
    else if cur.row.cancelled.Some? then Refuse(cur, ErrorCode.ApplicationCancelled)
    else if !Terminal(cur.row.status) then Commit(cur)
    else
      Commit(cur.(
        row := cur.row.(status := if toSupplement then AppStatus.SupplementRequired else AppStatus.UnderReview,
                        final := NO_DECISION, updatedAt := now),
        finalHistory := if HasCurrentFinal(cur.row)
                        then cur.finalHistory + [Superseded(cur.row.final, now, actor.id, reason)]
                        else cur.finalHistory))
  }

  // ---------- Resolution cases ----------

  datatype Resolution = ResolveAccept | ResolveReject | ResolveSupplement | NoAction

  /** `mapTaskUpdate`, with the status the task was read with before the lock. A supplement asked for this way
      creates no request. */
  function ResolvedTask(task: Task, read: TaskStatus, resolution: Resolution, note: string): Task {
    var noted := task.(verdict := task.verdict.(officerNote := Some(note)));
    match resolution
    case ResolveAccept =>
      noted.(status := TaskStatus.Accepted, verdict := noted.verdict.(decision := Some(Accept)))
    case ResolveReject =>
      noted.(status := TaskStatus.Rejected, verdict := noted.verdict.(decision := Some(Reject)))
    case ResolveSupplement =>
      noted.(status := TaskStatus.SupplementRequired, verdict := noted.verdict.(decision := Some(AskSupplement)))
    case NoAction => noted.(status := if read.ResolutionNeeded? then TaskStatus.Reviewing else read)
  }

  /** All tasks are decided and one is rejected, elsewhere than at individual City: the application is closed as
      failed. */
  predicate ClosesAsFailed(tasks: seq<Task>, cityIndividual: bool) {
    && !cityIndividual && tasks != []
    && (forall i :: 0 <= i < |tasks| ==> tasks[i].status.Accepted? || tasks[i].status.Rejected?)
    && exists i :: 0 <= i < |tasks| && tasks[i].status.Rejected?
  }

  /** `applyApplicationStatus`. */
  function ResolvedRow(row: Row, resolution: Resolution, openCases: bool, tasks: seq<Task>, cityIndividual: bool,
                       now: Time): Row
  {
    if resolution.ResolveSupplement? then row.(status := AppStatus.SupplementRequired, final := NO_DECISION)
    else if openCases then row.(status := AppStatus.ResolutionNeeded, final := NO_DECISION)
    else if HasSupplementTask(tasks) then row.(status := AppStatus.SupplementRequired, final := NO_DECISION)
    else if exists i :: 0 <= i < |tasks| && tasks[i].status.ResolutionNeeded? then
      row.(status := AppStatus.ResolutionNeeded, final := NO_DECISION)
    else if ClosesAsFailed(tasks, cityIndividual) then
      row.(status := AppStatus.Rejected,
           final := FinalDecision(FinalStatus.Failed, None, Some(AUTO_CLOSED), Some(now), row.final.who))
    else row.(status := AppStatus.UnderReview, final := NO_DECISION)
  }

  /** Resolves a case. `task` is the related task, if there is one; `openCases` tells whether another case of the
      application is still open, `evidences` what the decisions on evidence leave. */
  function ResolveCase(task: Option<nat>, resolution: Resolution, note: string, openCases: bool,
                       evidences: seq<Evidence>, now: Time, first: App, cur: App): Outcome
  {
    if cur.row.cancelled.Some? then Refuse(cur, ErrorCode.ApplicationCancelled)
    else if task.Some? && (task.value >= |first.tasks| || task.value >= |cur.tasks|) then
      Refuse(cur, ErrorCode.NotFound)
    else
      var tasks := if task.None? then cur.tasks
                   else cur.tasks[task.value := ResolvedTask(cur.tasks[task.value], first.tasks[task.value].status,
                                                             resolution, note)];
      Commit(cur.(
        row := ResolvedRow(cur.row, resolution, openCases, tasks, IndividualCity(first.row), now).(updatedAt := now),
        tasks := tasks, evidences := evidences))
  }

  /** Reopening a closed case puts the application back on it and leaves a final decision as it is. */
  function ReopenCase(now: Time, cur: App): Outcome {
    if cur.row.cancelled.Some? then Refuse(cur, ErrorCode.ApplicationCancelled)
    else Commit(cur.(row := cur.row.(status := AppStatus.ResolutionNeeded, updatedAt := now)))
  }

  // ---------- Writers without the lock ----------

  /** The student's import of a registered event checks owner and status before its transaction and takes no
      lock; staff are not held to the status. `known` tells whether the event is among the evidence by then. */
  function ImportEvent(actor: Actor, id: Id, criterion: Criterion, known: bool, now: Time, first: App, cur: App)
    : Outcome
  {
    if actor.role.Student? && first.row.studentId != actor.id then Refuse(cur, ErrorCode.OwnerRequired)
    else if actor.role.Student? && first.row.status.SupplementRequired?
            && !exists i :: 0 <= i < |first.tasks| && first.tasks[i].criterion == criterion
                            && first.tasks[i].status.SupplementRequired? then
      Refuse(cur, ErrorCode.Forbidden)
    else if actor.role.Student? && !Editable(first.row.status) then Refuse(cur, ErrorCode.ApplicationLocked)
    else if known then Commit(cur)
    else
      var imported := Evidence(id, criterion, EvidenceStatus.UnderReview, IndexingStatus.Indexed,
                               Some(Card(false, Some(NotRequired))));
      Commit(cur.(evidences := cur.evidences + [imported], row := cur.row.(updatedAt := now)))
  }

  /** What the analysis of a document writes: progress without a lock, its result under the lock, a new attempt, or
      one of two failures. */
  datatype Processed =
    | Progress(stage: IndexingStatus)
    | Analysed(indexing: IndexingStatus, status: EvidenceStatus, card: Card)
    | Requeued
    | Unreadable
    | Broken

  /** The result of an analysis and an unreadable document leave the status alone if the application is
      cancelled; a new attempt does not ask. */
  function ProcessedEvidence(e: Evidence, result: Processed, cancelled: bool): Evidence {
    match result
    case Progress(stage) => e.(indexing := stage)
    case Analysed(indexing, status, card) =>
      e.(indexing := indexing, card := Some(card), status := if cancelled then e.status else status)
    case Requeued => e.(indexing := IndexingStatus.PendingIndexing, status := EvidenceStatus.PendingIndexing)
    case Unreadable =>
      e.(indexing := IndexingStatus.NeedsManualReview,
         status := if cancelled then e.status else EvidenceStatus.NeedsSupplement)
    case Broken => e.(indexing := IndexingStatus.Failed)
  }

  function ProcessedEvidences(evidences: seq<Evidence>, id: Id, result: Processed, cancelled: bool)
    : (processed: seq<Evidence>)
    ensures |processed| == |evidences|
  {
    seq(|evidences|, i requires 0 <= i < |evidences| =>
      if evidences[i].id == id then ProcessedEvidence(evidences[i], result, cancelled) else evidences[i])
  }

  function ProcessEvidence(id: Id, result: Processed, cur: App): Outcome {
    Commit(cur.(evidences := ProcessedEvidences(cur.evidences, id, result, cur.row.cancelled.Some?)))
  }

  /** The requests of a task after the assistant's resubmission, which marks the request that was active when it
      read the task and rewrites its history from that reading. Requests are only ever added at the front. */
  function AssistedRequests(read: Task, requests: seq<SupplementRequest>, who: Id, now: Time): seq<SupplementRequest>
    requires ResubmittedRequests(read, who, now).Some?
  {
    var k := ActiveIndex(read.requests);
    if k.None? then [ResubmittedRequests(read, who, now).value[0]] + requests
    else
      var p := |requests| - (|read.requests| - k.value);
      if p < 0 then requests
      else
        requests[p := requests[p].(status := RequestStatus.Resubmitted, resubmittedAt := Some(now),
                                   history := MarkResubmitted(read.requests[k.value], who, now).history)]
  }

  function AssistedTask(read: Task, task: Task, evidences: seq<Evidence>, who: Id, now: Time): Task
    requires ResubmittedRequests(read, who, now).Some?
  {
    task.(status := TaskStatus.Waiting, verdict := NO_VERDICT,
          links := task.links + EvidenceIds(evidences, read.criterion),
          requests := AssistedRequests(read, task.requests, who, now))
  }

  /** The assistant's own resubmission checks everything on what it read, takes no lock, does not ask for a
      cancellation, and always puts the application under review. */
  function AssistantResubmit(actor: Actor, t: nat, now: Time, first: App, cur: App): Outcome {
    if !actor.role.Student? then Refuse(cur, ErrorCode.Forbidden)
    else if t >= |first.tasks| || first.row.studentId != actor.id || !first.tasks[t].status.SupplementRequired? then
      Refuse(cur, ErrorCode.NotFound)
    else if !first.row.targetLevel.City? then Refuse(cur, ErrorCode.NotSubmittable)
    else if ResubmittedRequests(first.tasks[t], actor.id, now).None? then Refuse(cur, ErrorCode.NotFound)
    else if !ReadyToResubmit(first, t, now) then Refuse(cur, ErrorCode.NotReady)
    else if t >= |cur.tasks| then Refuse(cur, ErrorCode.NotFound)
    else
      Commit(cur.(
        row := cur.row.(status := AppStatus.UnderReview, updatedAt := now),
        tasks := cur.tasks[t := AssistedTask(first.tasks[t], cur.tasks[t], first.evidences, actor.id, now)],
        evidences := MoveEvidence(cur.evidences, {first.tasks[t].criterion})))
  }

  // ---------- Requests ----------

  datatype Request =
    | RqTargetLevel(actor: Actor, level: Level)
    | RqAutosave(actor: Actor, chosen: Option<Level>)
    | RqSubmit(actor: Actor, ctx: SubmitContext)
    | RqReopenSupplement(actor: Actor)
    | RqCancel(actor: Actor, reason: string)
    | RqReopenCancelled(actor: Actor)
    | RqArchive(actor: Actor, why: Option<string>)
    | RqUnarchive(actor: Actor)
    | RqVerify(actor: Actor, approved: bool, basisHash: string, needsVerification: bool)
    | RqResubmit(actor: Actor, task: nat, deadlineOpen: bool)
    | RqPrecheck(ready: bool)
    | RqChangeEvidence(evidences: seq<Evidence>)
    | RqFinalize(actor: Actor, status: FinalStatus, finalLevel: Option<Level>, note: Option<string>)
    | RqOfficerDecides(actor: Actor, task: nat, decision: Decision, verdict: Verdict, dueDate: Option<Time>,
                       message: string, evidences: seq<Evidence>)
    | RqEnsureTasks
    | RqAggregate(actor: Actor)
    | RqClaim(task: nat)
    | RqReopenFinal(actor: Actor, reason: string, toSupplement: bool)
    | RqResolveCase(related: Option<nat>, resolution: Resolution, remark: string, openCases: bool,
                    evidences: seq<Evidence>)
    | RqReopenCase
    | RqImportEvent(actor: Actor, evidence: Id, criterion: Criterion, known: bool)
    | RqProcessEvidence(evidence: Id, result: Processed)
    | RqAssistantResubmit(actor: Actor, task: nat)

  function Perform(rq: Request, now: Time, first: App, second: App, cur: App): Outcome {
    match rq
    case RqTargetLevel(actor, level) => UpdateTargetLevel(actor, level, now, first, cur)
    case RqAutosave(actor, chosen) => AutosaveDraft(actor, chosen, now, first, cur)
    case RqSubmit(actor, ctx) => Submit(actor, ctx, now, first, second, cur)
    case RqReopenSupplement(actor) => ReopenSupplement(actor, now, first, cur)
    case RqCancel(actor, reason) => Cancel(actor, reason, now, first, cur)
    case RqReopenCancelled(actor) => ReopenCancelled(actor, now, first, cur)
    case RqArchive(actor, why) => Archive(actor, why, now, first, cur)
    case RqUnarchive(actor) => Unarchive(actor, now, first, cur)
    case RqVerify(actor, approved, hash, needs) => VerifyEligibility(actor, approved, hash, needs, now, first, cur)
    case RqResubmit(actor, t, open) => Resubmit(actor, t, open, now, first, cur)
    case RqPrecheck(ready) => Precheck(ready, now, first, cur)
    case RqChangeEvidence(evidences) => ChangeEvidence(evidences, cur)
    case RqFinalize(actor, status, level, note) => Finalize(actor, status, level, note, now, first, cur)
    case RqOfficerDecides(actor, t, decision, verdict, due, message, evidences) =>
      OfficerDecides(actor, t, decision, verdict, due, message, evidences, now, first, cur)
    case RqEnsureTasks => EnsureTasks(now, first, cur)
    case RqAggregate(actor) => AggregateReview(actor, now, first, cur)
    case RqClaim(t) => Claim(t, first, cur)
    case RqReopenFinal(actor, reason, toSupplement) => ReopenFinal(actor, reason, toSupplement, now, first, cur)
    case RqResolveCase(t, resolution, note, openCases, evidences) =>
      ResolveCase(t, resolution, note, openCases, evidences, now, first, cur)
    case RqReopenCase => ReopenCase(now, cur)
    case RqImportEvent(actor, id, criterion, known) => ImportEvent(actor, id, criterion, known, now, first, cur)
    case RqProcessEvidence(id, result) => ProcessEvidence(id, result, cur)
    case RqAssistantResubmit(actor, t) => AssistantResubmit(actor, t, now, first, cur)
  }
}
