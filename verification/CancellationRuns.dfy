/** What a cancellation freezes, over every interleaving of requests. */
module CancellationRuns {
  import opened ReviewTypes
  import opened Aggregate
  import opened AggregateRuns
  import opened SupplementRuns

  /** Only the archive fields, the update time and the evidence may differ. */
  predicate Frozen(before: App, after: App) {
    after == before.(row := before.row.(archived := after.row.archived, updatedAt := after.row.updatedAt),
                     evidences := after.evidences)
  }

  /** What gets past a cancellation: reopening it, a precheck that had read the application while it was still a
      draft, and the assistant's resubmission of a task that is not already as it would leave it. */
  predicate Thaws(rq: Request, now: Time, first: App, cur: App) {
    match rq
    case RqReopenCancelled(actor) => LifecycleGate(actor, first).None?
    case RqPrecheck(ready) =>
      var next := NextPrecheckStatus(first.row.status, ready);
      next.Some? && next.value != cur.row.status
    case RqAssistantResubmit(actor, t) =>
      AssistantResubmit(actor, t, now, first, cur).error.None?
      && !(cur.row.status.UnderReview?
           && AssistedTask(first.tasks[t], cur.tasks[t], first.evidences, actor.id, now) == cur.tasks[t])
    case _ => false
  }

  lemma CancelledDraftIsFrozen(rq: Request, now: Time, first: App, second: App, cur: App)
    requires cur.row.cancelled.Some? && WritesDraft(rq)
    ensures Frozen(cur, Perform(rq, now, first, second, cur).app) && !Thaws(rq, now, first, cur)
  {
    hide SubmitGate, DraftGate, SubmittedApp;
    assert cur == cur.(row := cur.row);
  }

  lemma ManagingCancelledIsFrozenIff(rq: Request, now: Time, first: App, second: App, cur: App)
    requires cur.row.cancelled.Some? && IsLifecycle(rq)
    ensures Frozen(cur, Perform(rq, now, first, second, cur).app) <==> !Thaws(rq, now, first, cur)
  {
    hide HasSupplementTask, HasOpenRequest, SuggestedStatus;
    assert cur == cur.(row := cur.row);
  }

  lemma ReviewingCancelledIsFrozenIff(rq: Request, now: Time, first: App, second: App, cur: App)
    requires cur.row.cancelled.Some? && !WritesDraft(rq) && !IsLifecycle(rq)
    ensures Frozen(cur, Perform(rq, now, first, second, cur).app) <==> !Thaws(rq, now, first, cur)
  {
    hide ReadyToResubmit, ResubmittedTask, DecidedTask, ProcessedEvidences, MoveEvidence, HasSupplementTask,
      ResolvedTask, ResolvedRow, SyncOutcome, ResubmittedRequests, FreshTasks, MissingCriteria, EnsuredCriteria,
      AssistantResubmit;
    assert cur == cur.(row := cur.row);
    if rq.RqAssistantResubmit? {
      AssistantIsFrozenIff(rq.actor, rq.task, now, first, cur);
    }
  }

  lemma CancelledStepIsFrozenIff(rq: Request, now: Time, first: App, second: App, cur: App)
    requires cur.row.cancelled.Some?
    ensures Frozen(cur, Perform(rq, now, first, second, cur).app) <==> !Thaws(rq, now, first, cur)
  {
    hide Frozen, Perform, Thaws;
    if WritesDraft(rq) {
      CancelledDraftIsFrozen(rq, now, first, second, cur);
    } else if IsLifecycle(rq) {
      ManagingCancelledIsFrozenIff(rq, now, first, second, cur);
    } else {
      ReviewingCancelledIsFrozenIff(rq, now, first, second, cur);
    }
  }

  lemma AssistantIsFrozenIff(actor: Actor, t: nat, now: Time, first: App, cur: App)
    ensures var outcome := AssistantResubmit(actor, t, now, first, cur);
            Frozen(cur, outcome.app)
            <==> outcome.error.Some?
                 || (cur.row.status.UnderReview?
                     && AssistedTask(first.tasks[t], cur.tasks[t], first.evidences, actor.id, now) == cur.tasks[t])
  {
    hide AssistedTask, ReadyToResubmit, ResubmittedRequests, MoveEvidence;
    var outcome := AssistantResubmit(actor, t, now, first, cur);
    if outcome.error.None? {
      var task := AssistedTask(first.tasks[t], cur.tasks[t], first.evidences, actor.id, now);
      assert outcome.app.tasks[t] == task;
      assert task == cur.tasks[t] ==> outcome.app.tasks == cur.tasks;
    } else {
      assert cur == cur.(row := cur.row);
    }
  }

  ghost predicate Thawed(states: seq<App>, events: seq<Event>, k: nat)
    requires k < |events| && |states| == |events| + 1 && events[k].first <= k
  {
    Thaws(events[k].rq, events[k].now, states[events[k].first], states[k])
  }

  ghost predicate NothingThaws(states: seq<App>, events: seq<Event>, i: nat, j: nat)
    requires |states| == |events| + 1 && i <= j <= |events|
  {
    forall k :: i <= k < j ==> events[k].first <= k && !Thawed(states, events, k)
  }

  /** While an application stays cancelled its row, snapshots, tasks, requests, decisions and verdict stay as they
      are, archive fields and update time apart, whatever was read before the cancellation. */
  lemma {:induction false} CancellationFreezes(states: seq<App>, events: seq<Event>, i: nat, j: nat)
    requires Run(states, events) && i <= j < |states|
    requires states[i].row.cancelled.Some? && NothingThaws(states, events, i, j)
    ensures Frozen(states[i], states[j])
  {
    hide Perform, Thaws;
    if i < j {
      CancellationFreezes(states, events, i, j - 1);
      var e := events[j - 1];
      assert Follows(states, events, j - 1) && !Thawed(states, events, j - 1);
      CancelledStepIsFrozenIff(e.rq, e.now, states[e.first], states[e.second], states[j - 1]);
    }
  }

  // ---------- Evidence of a cancelled application ----------

  /** What changes the evidence of a cancelled application: a new import of an event, the analysis of a document
      that says something new, and the assistant's resubmission if it has evidence to move. */
  predicate TouchesEvidence(rq: Request, now: Time, first: App, cur: App) {
    match rq
    case RqImportEvent(actor, id, criterion, known) =>
      ImportEvent(actor, id, criterion, known, now, first, cur).error.None? && !known
    case RqProcessEvidence(id, result) =>
      exists i :: 0 <= i < |cur.evidences| && cur.evidences[i].id == id
                  && ProcessedEvidence(cur.evidences[i], result, true) != cur.evidences[i]
    case RqAssistantResubmit(actor, t) =>
      AssistantResubmit(actor, t, now, first, cur).error.None?
      && exists i :: 0 <= i < |cur.evidences| && cur.evidences[i].criterion == first.tasks[t].criterion
                     && Movable(cur.evidences[i].status)
    case _ => false
  }

  lemma ProcessingTouchesIff(evidences: seq<Evidence>, id: Id, result: Processed)
    ensures ProcessedEvidences(evidences, id, result, true) != evidences
            <==> exists i :: 0 <= i < |evidences| && evidences[i].id == id
                             && ProcessedEvidence(evidences[i], result, true) != evidences[i]
  {
    var after := ProcessedEvidences(evidences, id, result, true);
    hide ProcessedEvidence;
    var changes := (e: Evidence) => e.id == id && ProcessedEvidence(e, result, true) != e;
    if i :| 0 <= i < |evidences| && changes(evidences[i]) {
      assert after[i] != evidences[i];
    }
  }

  lemma MovingTouchesIff(evidences: seq<Evidence>, criterion: Criterion)
    ensures MoveEvidence(evidences, {criterion}) != evidences
            <==> exists i :: 0 <= i < |evidences| && evidences[i].criterion == criterion && Movable(evidences[i].status)
  {
    var after := MoveEvidence(evidences, {criterion});
    if i :| 0 <= i < |evidences| && evidences[i].criterion == criterion && Movable(evidences[i].status) {
      assert after[i] != evidences[i];
    }
  }

  lemma AssistantTouchesIff(actor: Actor, t: nat, now: Time, first: App, cur: App)
    ensures AssistantResubmit(actor, t, now, first, cur).app.evidences == cur.evidences
            <==> !TouchesEvidence(RqAssistantResubmit(actor, t), now, first, cur)
  {
    hide ReadyToResubmit, ResubmittedRequests, AssistedTask, MoveEvidence, Movable;
    if t < |first.tasks| {
      MovingTouchesIff(cur.evidences, first.tasks[t].criterion);
    }
  }

  lemma OthersLeaveEvidence(rq: Request, now: Time, first: App, second: App, cur: App)
    requires cur.row.cancelled.Some?
    requires !rq.RqProcessEvidence? && !rq.RqAssistantResubmit? && !rq.RqImportEvent?
    ensures Perform(rq, now, first, second, cur).app.evidences == cur.evidences
  {
    hide SubmitGate, DraftGate, ReadyToResubmit, ResubmittedTask, DecidedTask, MoveEvidence, HasSupplementTask,
      HasOpenRequest, ResolvedTask, ResolvedRow, SyncOutcome, SuggestedStatus, ResubmittedRequests, LifecycleGate;
  }

  lemma CancelledEvidenceStaysIff(rq: Request, now: Time, first: App, second: App, cur: App)
    requires cur.row.cancelled.Some?
    ensures Perform(rq, now, first, second, cur).app.evidences == cur.evidences
            <==> !TouchesEvidence(rq, now, first, cur)
  {
    hide UpdateTargetLevel, AutosaveDraft, Submit, ReopenSupplement, Cancel, ReopenCancelled, Archive, Unarchive,
      VerifyEligibility, Resubmit, Precheck, Finalize, OfficerDecides, EnsureTasks, AggregateReview, Claim, ReopenFinal,
      ResolveCase, ReopenCase;
    match rq
    case RqProcessEvidence(id, result) =>
      hide ProcessedEvidences, ProcessedEvidence;
      ProcessingTouchesIff(cur.evidences, id, result);
    case RqAssistantResubmit(actor, t) =>
      hide AssistantResubmit, TouchesEvidence;
      AssistantTouchesIff(actor, t, now, first, cur);
    case RqImportEvent(_, _, _, _) =>
    case _ =>
      OthersLeaveEvidence(rq, now, first, second, cur);
      hide Perform;
  }

  /** No evidence is lost or moved to another criterion, and a status changes only back to pending, by a new
      attempt at a document, or back to review, by the assistant. */
  predicate KeptEvidence(before: seq<Evidence>, after: seq<Evidence>) {
    && |before| <= |after|
    && forall k :: 0 <= k < |before| ==>
         && after[k].id == before[k].id && after[k].criterion == before[k].criterion
         && (after[k].status == before[k].status || after[k].status.PendingIndexing? || after[k].status.UnderReview?)
  }

  lemma CancelledStepKeepsEvidence(rq: Request, now: Time, first: App, second: App, cur: App)
    requires cur.row.cancelled.Some?
    ensures KeptEvidence(cur.evidences, Perform(rq, now, first, second, cur).app.evidences)
  {
    hide SubmitGate, DraftGate, ReadyToResubmit, ResubmittedTask, DecidedTask, AssistedTask, HasSupplementTask,
      HasOpenRequest, ResolvedTask, ResolvedRow, SyncOutcome, SuggestedStatus, ResubmittedRequests, LifecycleGate;
  }

  ghost predicate Touched(states: seq<App>, events: seq<Event>, k: nat)
    requires k < |events| && |states| == |events| + 1
  {
    events[k].first <= k && TouchesEvidence(events[k].rq, events[k].now, states[events[k].first], states[k])
  }

  lemma {:induction false} CancelledEvidenceIsKept(states: seq<App>, events: seq<Event>, i: nat, j: nat)
    requires Run(states, events) && i <= j < |states|
    requires states[i].row.cancelled.Some? && NothingThaws(states, events, i, j)
    ensures KeptEvidence(states[i].evidences, states[j].evidences)
    ensures (forall k :: i <= k < j ==> !Touched(states, events, k)) ==> states[j].evidences == states[i].evidences
  {
    hide Perform, Thaws, TouchesEvidence;
    if i < j {
      CancelledEvidenceIsKept(states, events, i, j - 1);
      CancellationFreezes(states, events, i, j - 1);
      var e := events[j - 1];
      assert Follows(states, events, j - 1);
      CancelledStepKeepsEvidence(e.rq, e.now, states[e.first], states[e.second], states[j - 1]);
      CancelledEvidenceStaysIff(e.rq, e.now, states[e.first], states[e.second], states[j - 1]);
      assert e.first <= j - 1;
      assert states[j] == Perform(e.rq, e.now, states[e.first], states[e.second], states[j - 1]).app;
      assert !Touched(states, events, j - 1) ==> states[j].evidences == states[j - 1].evidences;
    }
  }

  // ---------- Runs of the exceptions ----------

  /** The precheck exception is real: a precheck that read the draft and commits after the
      application was submitted and cancelled turns the cancelled application back to a draft
      status. */
  lemma StalePrecheckThaws()
    ensures exists states: seq<App>, events: seq<Event> ::
              Run(states, events) && |events| == 3
              && states[2].row.cancelled.Some? && states[2].row.status.UnderReview?
              && events[2].rq.RqPrecheck?
              && states[3].row.cancelled.Some? && states[3].row.status.Prechecked?
  {
    var states, events := CancelledThenPrechecked();
    assert |events| == 3;
  }

  /** Cancelled while a supplement is awaited for the first task. */
  predicate AwaitsFirst(app: App) {
    && app.row.studentId == STUDENT.id && app.row.targetLevel.City? && app.row.cancelled.Some?
    && app.row.status.SupplementRequired?
    && |app.tasks| == 5 && app.tasks[0].criterion.Ethics? && app.tasks[0].status.SupplementRequired?
    && ActiveIndex(app.tasks[0].requests) == Some(0) && app.tasks[0].dueDate.None?
  }

  lemma CancelledAskedRun() returns (states: seq<App>, events: seq<Event>)
    ensures Run(states, events) && |events| == 3 && AwaitsFirst(states[3]) && states[3].evidences == []
  {
    states, events := OnceAskedRun();
    var asked := states[2];
    var cancelled := asked.(row := asked.row.(cancelled := Some(Stamp(3, ADMIN.id, Some("withdrawn"))),
                                              updatedAt := 3));
    CancellingAsked(asked);
    hide Cancel, Run;
    assert |states| == 3;
    ExtendByStep(states, events, Event(RqCancel(ADMIN, "withdrawn"), 3, 2, 2), cancelled);
    states, events := states + [cancelled], events + [Event(RqCancel(ADMIN, "withdrawn"), 3, 2, 2)];
  }

  /** Then a registered event is imported by the student. */
  lemma ImportedRun() returns (states: seq<App>, events: seq<Event>)
    ensures Run(states, events) && |events| == 4 && AwaitsFirst(states[3]) && states[3].evidences == []
    ensures events[3].rq.RqImportEvent? && events[3].first == 3 && states[4] == Imported(states[3], 4)
  {
    states, events := CancelledAskedRun();
    var e := Event(RqImportEvent(STUDENT, "event", Criterion.Ethics, false), 4, 3, 3);
    ImportingIntoCancelled(states[3]);
    assert |states| == 4;
    hide ImportEvent, Run, AwaitsFirst, Imported;
    ExtendByStep(states, events, e, Imported(states[3], 4));
    states, events := states + [Imported(states[3], 4)], events + [e];
  }

  /** Then the task is resubmitted through the assistant. */
  lemma AssistedRun() returns (states: seq<App>, events: seq<Event>)
    ensures Run(states, events) && |events| == 5 && AwaitsFirst(states[3]) && states[3].evidences == []
    ensures events[3].rq.RqImportEvent? && events[3].first == 3 && states[4] == Imported(states[3], 4)
    ensures events[4].rq.RqAssistantResubmit? && events[4].first == 4 && Resumed(states[4], states[5])
  {
    states, events := ImportedRun();
    var e := Event(RqAssistantResubmit(STUDENT, 0), 5, 4, 4);
    var next := AssistantResubmit(STUDENT, 0, 5, states[4], states[4]).app;
    AssistingCancelled(states[3], states[4]);
    assert |states| == 5;
    hide AssistantResubmit, Run, AwaitsFirst, Imported, Resumed;
    ExtendByStep(states, events, e, next);
    states, events := states + [next], events + [e];
  }

  /** Back under review and its first task waiting, although cancelled. */
  predicate Resumed(before: App, after: App) {
    && after.row == before.row.(status := AppStatus.UnderReview, updatedAt := after.row.updatedAt)
    && |after.tasks| == 5 && after.tasks[0].status.Waiting? && after.evidences == before.evidences
  }

  lemma CancellingAsked(asked: App)
    requires asked.row.cancelled.None? && asked.row.submittedAt.Some? && asked.row.final == NO_DECISION
    requires IndividualCity(asked.row)
    ensures Cancel(ADMIN, "withdrawn", 3, asked, asked)
            == Commit(asked.(row := asked.row.(cancelled := Some(Stamp(3, ADMIN.id, Some("withdrawn"))),
                                               updatedAt := 3)))
  {
  }

  lemma ImportingIntoCancelled(app: App)
    requires AwaitsFirst(app)
    ensures ImportEvent(STUDENT, "event", Criterion.Ethics, false, 4, app, app) == Commit(Imported(app, 4))
  {
  }

  lemma AssistingCancelled(before: App, app: App)
    requires AwaitsFirst(before) && before.evidences == [] && app == Imported(before, 4)
    ensures Resumed(app, AssistantResubmit(STUDENT, 0, 5, app, app).app)
  {
    assert app.evidences[0].criterion.Ethics? && app.evidences[0].status.UnderReview?;
    assert ReadyToResubmit(app, 0, 5);
    var after := AssistantResubmit(STUDENT, 0, 5, app, app).app;
    assert after.evidences == app.evidences;
  }

  lemma RequeuingCancelled(app: App)
    requires |app.evidences| == 1 && app.evidences[0].id == "event"
    ensures var next := ProcessEvidence("event", Requeued, app).app;
            Frozen(app, next) && |next.evidences| == 1 && next.evidences[0].status.PendingIndexing?
  {
    assert app == app.(row := app.row);
  }

  /** The evidence and assistant exceptions are real, and need no outdated read: while cancelled, an application
      gets new evidence, is put back under review with its task waiting, and its document is queued again. */
  lemma CancelledApplicationChanges()
    ensures exists states: seq<App>, events: seq<Event> ::
              && Run(states, events) && |events| == 6 && AwaitsFirst(states[3])
              && events[3].rq.RqImportEvent? && events[4].rq.RqAssistantResubmit? && events[5].rq.RqProcessEvidence?
              && events[3].first == 3 && events[4].first == 4 && events[5].first == 5
              && states[3].evidences == [] && states[4] == Imported(states[3], 4)
              && Resumed(states[4], states[5])
              && |states[6].evidences| == 1 && states[6].evidences[0].status.PendingIndexing?
  {
    var states, events := AssistedRun();
    var e := Event(RqProcessEvidence("event", Requeued), 6, 5, 5);
    var next := ProcessEvidence("event", Requeued, states[5]).app;
    assert |states| == 6;
    RequeuingCancelled(states[5]);
    hide ProcessEvidence, Run, AwaitsFirst, Imported, Resumed;
    ExtendByStep(states, events, e, next);
    var states', events' := states + [next], events + [e];
    assert Run(states', events') && states'[3] == states[3] && states'[4] == states[4] && states'[5] == states[5];
  }

  lemma CancelledThenPrechecked() returns (states: seq<App>, events: seq<Event>)
    ensures Run(states, events) && |events| == 3 && events[2].rq.RqPrecheck?
    ensures states[2].row.cancelled.Some? && states[2].row.status.UnderReview?
    ensures states[3].row.cancelled.Some? && states[3].row.status.Prechecked?
  {
    states, events := SubmittedRun();
    var submitted := states[1];
    ExtendRun(states, events, Event(RqCancel(ADMIN, "withdrawn"), 2, 1, 1));
    var cancelled := Cancel(ADMIN, "withdrawn", 2, submitted, submitted).app;
    states, events := states + [cancelled], events + [Event(RqCancel(ADMIN, "withdrawn"), 2, 1, 1)];
    ExtendRun(states, events, Event(RqPrecheck(false), 3, 0, 0));
    states := states + [Precheck(false, 3, states[0], cancelled).app];
    events := events + [Event(RqPrecheck(false), 3, 0, 0)];
  }

  /** Cancelling and reopening an application under review gives it back unchanged. */
  lemma CancelThenReopenRestores(actor: Actor, reason: string, t1: Time, t2: Time, first: App, cur: App)
    requires LifecycleGate(actor, first).None?
    requires cur.row.cancelled.None? && cur.row.archived.None? && cur.row.submittedAt.Some?
    requires !HasCurrentFinal(cur.row) && !Terminal(cur.row.status)
    ensures var cancelled := Cancel(actor, reason, t1, first, cur);
            var reopened := ReopenCancelled(actor, t2, first, cancelled.app);
            && cancelled.error.None? && reopened.error.None?
            && reopened.app == cur.(row := cur.row.(updatedAt := t2))
  {
  }
}
