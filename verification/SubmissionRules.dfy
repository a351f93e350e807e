/** When a submission commits and what it stores, told by the rows alone, and what that means over the runs. */
module SubmissionRules {
  import opened ReviewTypes
  import opened Aggregate
  import opened AggregateRuns

  /** The statuses of an application that is in its student's hands. */
  predicate WithStudent(s: AppStatus) { s.Draft? || s.Prechecked? || s.ReadyToSubmit? || s.SupplementRequired? }

  predicate OfCity(row: Row) { row.appType == AppType.Individual && row.targetLevel == Level.City }

  /** A submission after the first, asked for as a supplement. */
  predicate AnswersSupplement(row: Row) { row.status == AppStatus.SupplementRequired && row.submittedAt.Some? }

  /** Some document is still being uploaded or read. */
  predicate DocumentsInWork(evidences: seq<Evidence>) {
    exists i :: 0 <= i < |evidences| && (evidences[i].status == EvidenceStatus.PendingIndexing
      || evidences[i].indexing in {IndexingStatus.PendingIndexing, IndexingStatus.OcrProcessing,
                                   IndexingStatus.Extracting, IndexingStatus.CheckingRegistry})
  }

  /** The rows read twice and then locked are one and the same to the submission. */
  predicate StillTheSame(r: Row, s: Row, c: Row) {
    && (r.appType, r.targetLevel, r.version, r.submittedAt) == (s.appType, s.targetLevel, s.version, s.submittedAt)
    && (c.status, c.targetLevel, c.version, c.submittedAt, c.updatedAt)
       == (s.status, s.targetLevel, s.version, s.submittedAt, s.updatedAt)
    && (OfCity(r) ==> c.studentId == r.studentId && c.appType == s.appType)
    && (OfCity(r) && !AnswersSupplement(r) ==> s.updatedAt == r.updatedAt)
  }

  /** A submission commits exactly if its sender may submit what was read, nothing has changed since, and everything
      that was looked up agrees: a student's first City submission is found eligible both before and under the lock,
      the window of a City submission is open both times, documents are read unless it is such a first one, and
      warnings are accepted, by whomever it is sent. */
  lemma SubmitCommitsIff(actor: Actor, ctx: SubmitContext, now: Time, first: App, second: App, cur: App)
    ensures var r, s, c := first.row, second.row, cur.row;
            var opens := actor.role == Role.Student && OfCity(r) && !AnswersSupplement(r);
            Submit(actor, ctx, now, first, second, cur).error.None?
            <==>
            && (actor.role == Role.Admin || actor.id == r.studentId)
            && (actor.role == Role.Student ==> r.targetLevel == Level.City)
            && r.cancelled.None? && c.cancelled.None?
            && WithStudent(r.status) && WithStudent(s.status) && StillTheSame(r, s, c)
            && (opens ==> ctx.eligibleAtRead && ctx.eligibleInTx)
            && (OfCity(r) ==> ctx.windowOpenAtRead)
            && (OfCity(r) && (!AnswersSupplement(r) || s.status.SupplementRequired?) ==> ctx.windowOpenInTx)
            && (DocumentsInWork(first.evidences) ==> opens)
            && (ctx.hasWarnings ==> ctx.allowWarnings)
  {
    hide SubmittedApp;
    assert DocumentsInWork(first.evidences)
      <==> exists i :: 0 <= i < |first.evidences| && Processing(first.evidences[i]);
  }

  /** A refused submission leaves everything as it was, except that a precheck prepared for a student's first City
      submission is kept if warnings are all that stands in its way. */
  lemma RefusedSubmissionKeeps(actor: Actor, ctx: SubmitContext, now: Time, first: App, second: App, cur: App)
    requires Submit(actor, ctx, now, first, second, cur).error.Some?
    ensures var outcome := Submit(actor, ctx, now, first, second, cur);
            outcome.app != cur ==>
              && outcome.error == Some(ErrorCode.NotReady) && ctx.hasWarnings && !ctx.allowWarnings
              && ctx.prepared.Some? && actor.role == Role.Student && OfCity(first.row) && !AnswersSupplement(first.row)
              && outcome.app == cur.(row := cur.row.(status := outcome.app.row.status, updatedAt := now))
              && (outcome.app.row.status == cur.row.status
                  || outcome.app.row.status
                     == (if ctx.prepared.value.ready then AppStatus.ReadyToSubmit else AppStatus.Prechecked))
  {
    hide SubmittedApp;
    assert cur == cur.(row := cur.row);
  }

  /** A committed submission puts the application under review, keeps the time of the first submission, and stores
      the next version with a snapshot of it; decisions, verdict, cancellation and archive stay. */
  lemma SubmissionStores(actor: Actor, ctx: SubmitContext, now: Time, first: App, second: App, cur: App)
    requires Submit(actor, ctx, now, first, second, cur).error.None?
    ensures var next, was := Submit(actor, ctx, now, first, second, cur).app, cur.row;
            && next.row == was.(status := AppStatus.UnderReview, version := was.version + 1, updatedAt := now,
                                submittedAt := if was.submittedAt.Some? then was.submittedAt else Some(now))
            && next.snapshots
               == cur.snapshots + [Snapshot(was.version + 1, actor.id, Submission(now, was.targetLevel))]
            && next.finalHistory == cur.finalHistory && next.verification == cur.verification
  {
    hide FreshTasks, GenericTasks, SubmitCriteria, MoveEvidence, SupplementCriteria, HasSupplementTask;
  }

  // ---------- Review tasks and evidence ----------

  /** A new review task links exactly the evidence of its criterion and waits, with nothing decided. */
  predicate NewTask(task: Task, evidences: seq<Evidence>) {
    && task.status == TaskStatus.Waiting && task.verdict == Verdict(None, None, None, None, None)
    && task.requests == [] && task.dueDate.None? && task.legacyReason.None?
    && (forall i :: 0 <= i < |evidences| && evidences[i].criterion == task.criterion ==> evidences[i].id in task.links)
    && (forall id :: id in task.links ==>
          exists i :: 0 <= i < |evidences| && evidences[i].criterion == task.criterion && evidences[i].id == id)
  }

  lemma FreshTaskIsNew(criterion: Criterion, evidences: seq<Evidence>)
    ensures NewTask(FreshTask(criterion, evidences), evidences)
            && FreshTask(criterion, evidences).criterion == criterion
  {
  }

  lemma FreshTasksAreNew(criteria: seq<Criterion>, evidences: seq<Evidence>)
    ensures var tasks := FreshTasks(criteria, evidences);
            forall k :: 0 <= k < |criteria| ==> NewTask(tasks[k], evidences) && tasks[k].criterion == criteria[k]
  {
    hide NewTask, FreshTask;
    forall k | 0 <= k < |criteria|
      ensures NewTask(FreshTasks(criteria, evidences)[k], evidences)
              && FreshTasks(criteria, evidences)[k].criterion == criteria[k]
    {
      FreshTaskIsNew(criteria[k], evidences);
    }
  }

  /** A submission that read no tasks appends new ones: the five core criteria in order, and one for priority exactly
      if it is not individual City and its priority was found by the precheck or has evidence. */
  lemma SubmissionCreates(actor: Actor, ctx: SubmitContext, now: Time, first: App, second: App, cur: App)
    requires Submit(actor, ctx, now, first, second, cur).error.None? && first.tasks == []
    ensures var next := Submit(actor, ctx, now, first, second, cur).app;
            var n := |cur.tasks|;
            var priority := !OfCity(first.row)
              && (ctx.priorityFound
                  || exists i :: 0 <= i < |first.evidences| && first.evidences[i].criterion.Priority?);
            && |next.tasks| == n + 5 + (if priority then 1 else 0) && next.tasks[..n] == cur.tasks
            && (forall k :: n <= k < |next.tasks| ==> NewTask(next.tasks[k], first.evidences))
            && next.tasks[n].criterion == Criterion.Ethics && next.tasks[n + 1].criterion == Criterion.Academic
            && next.tasks[n + 2].criterion == Criterion.Physical && next.tasks[n + 3].criterion == Criterion.Volunteer
            && next.tasks[n + 4].criterion == Criterion.Integration
            && (priority ==> next.tasks[n + 5].criterion == Criterion.Priority)
            && next.evidences == cur.evidences
  {
    hide SubmitGate, NewTask, FreshTask, FreshTasks, MoveEvidence;
    var criteria := SubmitCriteria(first.evidences, ctx.priorityFound, !IndividualCity(first.row));
    FreshTasksAreNew(criteria, first.evidences);
    var next := Submit(actor, ctx, now, first, second, cur).app;
    assert next.tasks == cur.tasks + FreshTasks(criteria, first.evidences);
    assert !HasSupplementTask(first.tasks);
    forall k | |cur.tasks| <= k < |next.tasks| ensures NewTask(next.tasks[k], first.evidences) {
      assert next.tasks[k] == FreshTasks(criteria, first.evidences)[k - |cur.tasks|];
    }
  }

  // ---------- Over the runs ----------

  /** The step that submits an application for the first time, if it is its student's, was found eligible twice, had
      its window open twice, and was the owner's City submission; by anyone, it was in the student's hands, neither
      cancelled nor changed since it was read. */
  lemma FirstSubmissionIsChecked(states: seq<App>, events: seq<Event>, i: nat)
    requires Run(states, events) && i < |events|
    requires states[i].row.submittedAt.None? && states[i + 1].row.submittedAt.Some?
    ensures events[i].rq.RqSubmit?
    ensures var rq, read := events[i].rq, FirstRead(states, events, i).row;
            && WithStudent(states[i].row.status) && states[i].row.cancelled.None?
            && (read.version, read.targetLevel) == (states[i].row.version, states[i].row.targetLevel)
            && (rq.actor.role == Role.Student ==>
                  && rq.actor.id == states[i].row.studentId && OfCity(states[i].row)
                  && rq.ctx.eligibleAtRead && rq.ctx.eligibleInTx
                  && rq.ctx.windowOpenAtRead && rq.ctx.windowOpenInTx)
            && (rq.ctx.hasWarnings ==> rq.ctx.allowWarnings)
            && states[i + 1].row.submittedAt == Some(events[i].now)
  {
    hide Perform;
    var e := events[i];
    assert Follows(states, events, i);
    var first, second, cur := states[e.first], states[e.second], states[i];
    StepKeepsSubmittedAt(e.rq, e.now, first, second, cur);
    RunKeepsType(states, events, 0, e.first);
    RunKeepsType(states, events, e.first, i);
    PerformsSubmit(e.rq, e.now, first, second, cur);
    hide Submit;
    SubmitCommitsIff(e.rq.actor, e.rq.ctx, e.now, first, second, cur);
    SubmissionStores(e.rq.actor, e.rq.ctx, e.now, first, second, cur);
  }

  lemma PerformsSubmit(rq: Request, now: Time, first: App, second: App, cur: App)
    requires rq.RqSubmit?
    ensures Perform(rq, now, first, second, cur) == Submit(rq.actor, rq.ctx, now, first, second, cur)
  {
    hide Submit;
  }
}
