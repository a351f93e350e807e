/** Every refusal of a request names a reason that holds. */
module Refusals {
  import opened ReviewTypes
  import opened Aggregate
  import opened SubmissionRules
  import opened ResubmissionRules
  import opened LifecycleRules
  import opened ReviewRules

  predicate Cancelled(first: App, cur: App) { first.row.cancelled != None || cur.row.cancelled != None }

  predicate NotOwner(actor: Actor, first: App) { actor.role != Role.Admin && actor.id != first.row.studentId }

  /** Why a draft is not saved. */
  predicate DraftReason(code: ErrorCode, actor: Actor, level: Option<Level>, first: App, cur: App) {
    match code
    case OwnerRequired => NotOwner(actor, first)
    case ApplicationCancelled => Cancelled(first, cur)
    case Forbidden => actor.role == Role.Student && level != None
    case ApplicationLocked =>
      !WithStudent(first.row.status) || !WithStudent(cur.row.status) || first.row.version != cur.row.version
    case _ => false
  }

  /** Why an application is not submitted. */
  predicate SubmissionReason(code: ErrorCode, actor: Actor, ctx: SubmitContext, first: App, second: App, cur: App) {
    match code
    case OwnerRequired => NotOwner(actor, first)
    case ApplicationCancelled => Cancelled(first, cur)
    case AlreadyProcessed => !WithStudent(first.row.status) && first.tasks != []
    case NotSubmittable =>
      (!WithStudent(first.row.status) && first.tasks == [])
      || (actor.role == Role.Student && first.row.targetLevel != Level.City)
    case NotEligible =>
      actor.role == Role.Student && OfCity(first.row) && !AnswersSupplement(first.row)
      && !(ctx.eligibleAtRead && ctx.eligibleInTx)
    case WindowClosed => OfCity(first.row) && !(ctx.windowOpenAtRead && ctx.windowOpenInTx)
    case NotReady => DocumentsInWork(first.evidences) || (ctx.hasWarnings && !ctx.allowWarnings)
    case ApplicationLocked =>
      !StillTheSame(first.row, second.row, cur.row) || !WithStudent(second.row.status)
    case _ => false
  }

  /** Why a task is not resubmitted; `read` is what the route goes by. */
  ghost predicate ResubmissionReason(code: ErrorCode, actor: Actor, t: nat, deadlineOpen: bool, now: Time, first: App,
                                     read: App, cur: App)
  {
    match code
    case Forbidden => actor.role != Role.Student
    case NotFound =>
      !Awaits(first, t) || !Awaits(read, t) || t >= |cur.tasks|
      || actor.id != first.row.studentId || actor.id != read.row.studentId
      || (!HasActive(read.tasks[t].requests) && AskedBefore(read.tasks[t]) == "")
    case ApplicationCancelled => Cancelled(first, cur)
    case NotSubmittable => read.row.targetLevel != Level.City
    case WindowClosed => OfCity(read.row) && !deadlineOpen
    case NotReady =>
      t < |read.tasks| && !(read.row.status == AppStatus.SupplementRequired && EvidenceIsIn(read, t, now))
    case _ => false
  }

  /** Why an application is not cancelled, reopened, archived or restored. */
  predicate LifecycleReason(code: ErrorCode, actor: Actor, first: App, possible: bool) {
    match code
    case Forbidden => actor.role !in {Role.CityManager, Role.Admin}
    case NotFound => !OfCity(first.row)
    case ApplicationLocked => !possible
    case _ => false
  }

  ghost predicate Reason(code: ErrorCode, rq: Request, now: Time, first: App, second: App, cur: App) {
    match rq
    case RqTargetLevel(actor, level) => DraftReason(code, actor, Some(level), first, cur)
    case RqAutosave(actor, chosen) => DraftReason(code, actor, chosen, first, cur)
    case RqSubmit(actor, ctx) => SubmissionReason(code, actor, ctx, first, second, cur)
    case RqReopenSupplement(actor) =>
      (code == ErrorCode.ApplicationCancelled && Cancelled(first, cur))
      || (code == Forbidden && !(actor.role in {Role.CityManager, Role.Admin}
                                 || (actor.role == Role.Manager && !OfCity(first.row))))
    case RqCancel(actor, _) =>
      LifecycleReason(code, actor, first,
                      cur.row.cancelled == None && (cur.row.submittedAt != None || HasResult(cur.row)))
    case RqReopenCancelled(actor) => LifecycleReason(code, actor, first, cur.row.cancelled != None)
    case RqArchive(actor, _) =>
      LifecycleReason(code, actor, first, cur.row.archived == None && (IsClosed(cur.row) || cur.row.cancelled != None))
    case RqUnarchive(actor) => LifecycleReason(code, actor, first, cur.row.archived != None)
    case RqVerify(actor, _, _, needed) =>
      (match code
       case Forbidden => actor.role != Role.CityManager
       case NotFound => !OfCity(first.row)
       case VerificationNotRequired => !needed
       case ApplicationCancelled => cur.row.cancelled != None
       case ApplicationLocked => !BeforeSubmission(first.row) || !BeforeSubmission(cur.row)
       case _ => false)
    case RqResubmit(actor, t, open) => ResubmissionReason(code, actor, t, open, now, first, cur, cur)
    case RqAssistantResubmit(actor, t) =>
      ResubmissionReason(code, actor, t, true, now, first, first, cur) && code != ErrorCode.ApplicationCancelled
    case RqFinalize(_, status, _, _) =>
      (code == ErrorCode.ApplicationCancelled && Cancelled(first, cur))
      || (code == FinalExists && (status == FinalStatus.Pending || HasResult(first.row) || HasResult(cur.row)))
    case RqOfficerDecides(actor, t, _, _, _, _, _) =>
      (match code
       case ApplicationCancelled => cur.row.cancelled != None
       case NotFound => t >= |first.tasks| || t >= |cur.tasks|
       case AlreadyProcessed =>
         t < |first.tasks| && t < |cur.tasks|
         && ((!Decides(actor) && first.tasks[t].status in {TaskStatus.Accepted, TaskStatus.Rejected})
             || (OfCity(first.row) && (first.tasks[t].status != cur.tasks[t].status
                                       || first.tasks[t].verdict.decision != cur.tasks[t].verdict.decision)))
       case _ => false)
    case RqClaim(t) =>
      (match code
       case ApplicationCancelled => cur.row.cancelled != None
       case NotFound => t >= |first.tasks| || t >= |cur.tasks|
       case AlreadyProcessed =>
         t < |first.tasks| && t < |cur.tasks|
         && (first.tasks[t].status != cur.tasks[t].status || cur.tasks[t].verdict.decision != None)
       case _ => false)
    case RqEnsureTasks =>
      (code == ErrorCode.ApplicationCancelled && cur.row.cancelled != None)
      || (code == InvalidStatus
          && first.row.status !in {AppStatus.Submitted, AppStatus.UnderReview, AppStatus.SupplementRequired,
                                   AppStatus.ResolutionNeeded})
    case RqAggregate(actor) =>
      (code == ErrorCode.ApplicationCancelled && cur.row.cancelled != None)
      || (code == Forbidden && actor.role !in {Role.CityManager, Role.Admin})
    case RqReopenFinal(actor, _, _) =>
      (code == ErrorCode.ApplicationCancelled && cur.row.cancelled != None)
      || (code == Forbidden && OfCity(first.row)
          && actor.role !in {Role.CityManager, Role.CityCommittee, Role.Admin})
    case RqResolveCase(task, _, _, _, _) =>
      (code == ErrorCode.ApplicationCancelled && cur.row.cancelled != None)
      || (code == NotFound && task != None && (task.value >= |first.tasks| || task.value >= |cur.tasks|))
    case RqReopenCase => code == ErrorCode.ApplicationCancelled && cur.row.cancelled != None
    case RqChangeEvidence(_) => code == ErrorCode.ApplicationCancelled && cur.row.cancelled != None
    case RqImportEvent(actor, _, criterion, _) =>
      actor.role == Role.Student
      && (match code
          case OwnerRequired => actor.id != first.row.studentId
          case Forbidden =>
            first.row.status == AppStatus.SupplementRequired
            && forall t: nat :: Awaits(first, t) ==> first.tasks[t].criterion != criterion
          case ApplicationLocked => !WithStudent(first.row.status)
          case _ => false)
    case RqPrecheck(_) => false
    case RqProcessEvidence(_, _) => false
  }

  lemma SubmissionRefusedTruly(actor: Actor, ctx: SubmitContext, now: Time, first: App, second: App, cur: App)
    ensures var error := Submit(actor, ctx, now, first, second, cur).error;
            error != None ==> SubmissionReason(error.value, actor, ctx, first, second, cur)
  {
    hide SubmittedApp;
    assert DocumentsInWork(first.evidences)
      <==> exists i :: 0 <= i < |first.evidences| && Processing(first.evidences[i]);
  }

  lemma ResubmissionRefusedTruly(actor: Actor, t: nat, deadlineOpen: bool, now: Time, first: App, cur: App)
    ensures var error := Resubmit(actor, t, deadlineOpen, now, first, cur).error;
            error != None ==> ResubmissionReason(error.value, actor, t, deadlineOpen, now, first, cur, cur)
    ensures var error := AssistantResubmit(actor, t, now, first, cur).error;
            error != None ==> ResubmissionReason(error.value, actor, t, true, now, first, first, cur)
                              && error.value != ErrorCode.ApplicationCancelled
  {
    hide MoveEvidence, HasSupplementTask, AssistedTask, ResubmittedTask;
    if t < |cur.tasks| {
      EvidenceIsInIff(cur, t, now);
      assert HasActive(cur.tasks[t].requests) <==> ActiveIndex(cur.tasks[t].requests).Some?;
    }
    if t < |first.tasks| {
      EvidenceIsInIff(first, t, now);
      assert HasActive(first.tasks[t].requests) <==> ActiveIndex(first.tasks[t].requests).Some?;
    }
    hide EvidenceIsIn, ReadyToResubmit, HasActive, ActiveIndex;
  }

  lemma DraftsRefusedTruly(rq: Request, now: Time, first: App, second: App, cur: App)
    requires rq.RqTargetLevel? || rq.RqAutosave? || rq.RqVerify?
    ensures var error := Perform(rq, now, first, second, cur).error;
            error != None ==> Reason(error.value, rq, now, first, second, cur)
  {
  }

  predicate Manages(rq: Request) {
    rq.RqCancel? || rq.RqReopenCancelled? || rq.RqArchive? || rq.RqUnarchive? || rq.RqReopenSupplement?
    || rq.RqFinalize? || rq.RqReopenFinal? || rq.RqAggregate?
  }

  lemma ManagersRefusedTruly(rq: Request, now: Time, first: App, second: App, cur: App)
    requires Manages(rq)
    ensures var error := Perform(rq, now, first, second, cur).error;
            error != None ==> Reason(error.value, rq, now, first, second, cur)
  {
    hide SuggestedStatus, HasSupplementTask, HasOpenRequest;
  }

  predicate Reviews(rq: Request) {
    rq.RqOfficerDecides? || rq.RqClaim? || rq.RqEnsureTasks? || rq.RqResolveCase? || rq.RqReopenCase?
  }

  lemma OfficersRefusedTruly(rq: Request, now: Time, first: App, second: App, cur: App)
    requires Reviews(rq)
    ensures var error := Perform(rq, now, first, second, cur).error;
            error != None ==> Reason(error.value, rq, now, first, second, cur)
  {
    hide SyncOutcome, ResolvedRow, DecidedTask, ResolvedTask, MissingCriteria, EnsuredCriteria, FreshTasks;
  }

  lemma EvidenceRefusedTruly(rq: Request, now: Time, first: App, second: App, cur: App)
    requires rq.RqImportEvent? || rq.RqChangeEvidence? || rq.RqPrecheck? || rq.RqProcessEvidence?
    ensures var error := Perform(rq, now, first, second, cur).error;
            error != None ==> Reason(error.value, rq, now, first, second, cur)
  {
    hide ProcessedEvidences, StorePrecheck;
  }

  /** Whatever request is refused, the reason it names holds of what was read or of what is there. */
  lemma RefusalsAreTrue(rq: Request, now: Time, first: App, second: App, cur: App)
    ensures var error := Perform(rq, now, first, second, cur).error;
            error != None ==> Reason(error.value, rq, now, first, second, cur)
  {
    if rq.RqSubmit? {
      SubmissionRefusedTruly(rq.actor, rq.ctx, now, first, second, cur);
      hide Submit, SubmissionReason;
    } else if rq.RqResubmit? {
      ResubmissionRefusedTruly(rq.actor, rq.task, rq.deadlineOpen, now, first, cur);
      hide Resubmit, ResubmissionReason;
    } else if rq.RqAssistantResubmit? {
      ResubmissionRefusedTruly(rq.actor, rq.task, true, now, first, cur);
      hide AssistantResubmit, ResubmissionReason;
    } else {
      hide Perform, Reason;
      if Manages(rq) {
        ManagersRefusedTruly(rq, now, first, second, cur);
      } else if Reviews(rq) {
        OfficersRefusedTruly(rq, now, first, second, cur);
      } else if rq.RqImportEvent? || rq.RqChangeEvidence? || rq.RqPrecheck? || rq.RqProcessEvidence? {
        EvidenceRefusedTruly(rq, now, first, second, cur);
      } else {
        DraftsRefusedTruly(rq, now, first, second, cur);
      }
    }
  }
}
