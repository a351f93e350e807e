/** Supplement requests and snapshots over the runs of the application aggregate. */
module RequestRuns {
  import opened ReviewTypes
  import opened Aggregate
  import opened AggregateRuns
  import opened SupplementRuns

  // ---------- Supplement requests ----------

  /** The last entry of a request's history tells its status: answered by the student at the recorded
      time, or still waiting for the student. */
  predicate Sound(r: SupplementRequest) {
    && r.history != [] && r.closedAt.None? && !r.status.Closed?
    && var last := r.history[|r.history| - 1];
       && (r.status.Resubmitted? <==> last.action.StudentResubmitted?)
       && r.resubmittedAt == if r.status.Resubmitted? then Some(last.at) else None
  }

  predicate AtMostOneActive(requests: seq<SupplementRequest>) {
    forall i, j :: 0 <= i < j < |requests| ==> !(requests[i].status.Active? && requests[j].status.Active?)
  }

  predicate HasActive(requests: seq<SupplementRequest>) {
    exists k :: 0 <= k < |requests| && requests[k].status.Active?
  }

  predicate SoundTask(t: Task) {
    (forall i :: 0 <= i < |t.requests| ==> Sound(t.requests[i])) && AtMostOneActive(t.requests)
  }

  predicate SoundTasks(tasks: seq<Task>) { forall t :: 0 <= t < |tasks| ==> SoundTask(tasks[t]) }

  lemma GenericKeepsSound(t: Task, read: Option<Task>, evidences: seq<Evidence>, who: Id, now: Time)
    requires SoundTask(t)
    ensures SoundTask(GenericTask(t, read, evidences, who, now))
  {
  }

  lemma ResubmissionKeepsSound(t: Task, evidences: seq<Evidence>, who: Id, now: Time)
    requires SoundTask(t) && ResubmittedRequests(t, who, now).Some?
    ensures SoundTask(ResubmittedTask(t, evidences, who, now))
  {
  }

  lemma DecisionKeepsSound(t: Task, who: Id, decision: Decision, verdict: Verdict, due: Option<Time>, message: string,
                           now: Time)
    requires SoundTask(t)
    ensures SoundTask(DecidedTask(t, who, decision, verdict, due, message, now))
  {
    var decided, k := DecidedTask(t, who, decision, verdict, due, message, now), ActiveIndex(t.requests);
    assert decision.AskSupplement? ==> decided.requests[if k.Some? then k.value else 0].status.Active?;
  }

  /** The assistant marks a request as it read it; it never makes one active. */
  lemma AssistantKeepsSound(read: Task, t: Task, evidences: seq<Evidence>, who: Id, now: Time)
    requires SoundTask(read) && SoundTask(t) && ResubmittedRequests(read, who, now).Some?
    ensures SoundTask(AssistedTask(read, t, evidences, who, now))
  {
    hide EvidenceIds;
  }

  lemma StepKeepsSound(rq: Request, now: Time, first: App, second: App, cur: App)
    requires SoundTasks(first.tasks) && SoundTasks(cur.tasks)
    ensures SoundTasks(Perform(rq, now, first, second, cur).app.tasks)
  {
    hide SoundTask, Perform;
    var next := Perform(rq, now, first, second, cur).app;
    forall t | 0 <= t < |next.tasks| ensures SoundTask(next.tasks[t]) {
      StepKeepsTaskSound(rq, now, first, second, cur, t);
    }
  }

  lemma FreshIsSound(c: Criterion, evidences: seq<Evidence>)
    ensures SoundTask(FreshTask(c, evidences))
  {
  }

  lemma FreshAreSound(criteria: seq<Criterion>, evidences: seq<Evidence>)
    ensures SoundTasks(FreshTasks(criteria, evidences))
  {
    hide SoundTask;
    forall c: Criterion ensures SoundTask(FreshTask(c, evidences)) {
      FreshIsSound(c, evidences);
    }
  }

  lemma SubmitKeepsTaskSound(actor: Actor, ctx: SubmitContext, now: Time, first: App, second: App, cur: App, t: nat)
    requires SoundTasks(cur.tasks) && t < |Submit(actor, ctx, now, first, second, cur).app.tasks|
    ensures SoundTask(Submit(actor, ctx, now, first, second, cur).app.tasks[t])
  {
    hide SoundTask, GenericTask, FreshTask, SubmitGate, SubmitCriteria, StorePrecheck, SameSubmissionState,
      MoveEvidence, SupplementCriteria, HasSupplementTask;
    FreshAreSound(SubmitCriteria(first.evidences, ctx.priorityFound, !IndividualCity(first.row)), first.evidences);
    if t < |cur.tasks| {
      var read := if t < |first.tasks| then Some(first.tasks[t]) else None;
      GenericKeepsSound(cur.tasks[t], read, first.evidences, actor.id, now);
    }
  }

  lemma EnsureKeepsTaskSound(now: Time, first: App, cur: App, t: nat)
    requires SoundTasks(cur.tasks) && t < |EnsureTasks(now, first, cur).app.tasks|
    ensures SoundTask(EnsureTasks(now, first, cur).app.tasks[t])
  {
    hide SoundTask, FreshTask, MissingCriteria, EnsuredCriteria;
    FreshAreSound(MissingCriteria(EnsuredCriteria(first), cur.tasks), first.evidences);
  }

  lemma ResubmitKeepsTaskSound(actor: Actor, u: nat, open: bool, now: Time, first: App, cur: App, t: nat)
    requires SoundTasks(cur.tasks) && t < |Resubmit(actor, u, open, now, first, cur).app.tasks|
    ensures SoundTask(Resubmit(actor, u, open, now, first, cur).app.tasks[t])
  {
    hide SoundTask, ResubmittedTask, ResubmittedRequests, ReadyToResubmit, MoveEvidence, HasSupplementTask;
    if ResubmittedRequests(cur.tasks[t], actor.id, now).Some? {
      ResubmissionKeepsSound(cur.tasks[t], cur.evidences, actor.id, now);
    }
  }

  lemma AssistantKeepsTaskSound(actor: Actor, u: nat, now: Time, first: App, cur: App, t: nat)
    requires SoundTasks(first.tasks) && SoundTasks(cur.tasks)
    requires t < |AssistantResubmit(actor, u, now, first, cur).app.tasks|
    ensures SoundTask(AssistantResubmit(actor, u, now, first, cur).app.tasks[t])
  {
    hide SoundTask, AssistedTask, ResubmittedRequests, ReadyToResubmit, MoveEvidence;
    if t < |first.tasks| && ResubmittedRequests(first.tasks[t], actor.id, now).Some? {
      AssistantKeepsSound(first.tasks[t], cur.tasks[t], first.evidences, actor.id, now);
    }
  }

  /** A step that neither submits, repairs, resubmits nor decides leaves every task's requests as they are. */
  lemma RequestsUntouched(rq: Request, now: Time, first: App, second: App, cur: App, t: nat)
    requires !rq.RqSubmit? && !rq.RqEnsureTasks? && !rq.RqResubmit? && !rq.RqAssistantResubmit? && !rq.RqOfficerDecides?
    requires t < |Perform(rq, now, first, second, cur).app.tasks|
    ensures t < |cur.tasks| && Perform(rq, now, first, second, cur).app.tasks[t].requests == cur.tasks[t].requests
  {
    hide DraftGate, LifecycleGate, ResolvedRow, HasSupplementTask, HasOpenRequest, SuggestedStatus, ProcessedEvidences;
  }

  lemma StepKeepsTaskSound(rq: Request, now: Time, first: App, second: App, cur: App, t: nat)
    requires SoundTasks(first.tasks) && SoundTasks(cur.tasks)
    requires t < |Perform(rq, now, first, second, cur).app.tasks|
    ensures SoundTask(Perform(rq, now, first, second, cur).app.tasks[t])
  {
    hide Submit, EnsureTasks, Resubmit, DecidedTask, SyncOutcome, AssistantResubmit, Sound, AtMostOneActive;
    match rq
    case RqSubmit(actor, ctx) => SubmitKeepsTaskSound(actor, ctx, now, first, second, cur, t);
    case RqEnsureTasks => EnsureKeepsTaskSound(now, first, cur, t);
    case RqResubmit(actor, u, open) => ResubmitKeepsTaskSound(actor, u, open, now, first, cur, t);
    case RqAssistantResubmit(actor, u) => AssistantKeepsTaskSound(actor, u, now, first, cur, t);
    case RqOfficerDecides(actor, _, decision, verdict, due, message, _) =>
      if t < |cur.tasks| {
        DecisionKeepsSound(cur.tasks[t], actor.id, decision, verdict, due, message, now);
      }
    case _ =>
      RequestsUntouched(rq, now, first, second, cur, t);
      hide Perform;
  }

  /** In every interleaving each review task has at most one active supplement request, and each request's status
      and answer time are those its history ends with. */
  lemma {:induction false} RequestsAreSound(states: seq<App>, events: seq<Event>, i: nat)
    requires Run(states, events) && i < |states|
    ensures SoundTasks(states[i].tasks)
    decreases i
  {
    hide SoundTask, Perform;
    if i > 0 {
      RequestsAreSound(states, events, i - 1);
      var e := events[i - 1];
      assert Follows(states, events, i - 1);
      RequestsAreSound(states, events, e.first);
      StepKeepsSound(e.rq, e.now, states[e.first], states[e.second], states[i - 1]);
    }
  }

  // ---------- Supplements without a request ----------

  /** A task that awaits a supplement has a request for it. */
  predicate Requested(t: Task) { t.status.SupplementRequired? ==> HasActive(t.requests) }

  predicate RequestedTasks(tasks: seq<Task>) { forall t :: 0 <= t < |tasks| ==> Requested(tasks[t]) }

  /** A case is resolved by asking for a supplement, or by no action on a task that was read as awaiting one, and
      the task has no active request. */
  predicate AsksWithoutRequest(rq: Request, first: App, cur: App) {
    && rq.RqResolveCase? && cur.row.cancelled.None? && rq.related.Some?
    && rq.related.value < |first.tasks| && rq.related.value < |cur.tasks|
    && (rq.resolution.ResolveSupplement?
        || (rq.resolution.NoAction? && first.tasks[rq.related.value].status.SupplementRequired?))
    && !HasActive(cur.tasks[rq.related.value].requests)
  }

  lemma DecisionKeepsRequested(t: Task, who: Id, decision: Decision, verdict: Verdict, due: Option<Time>,
                               message: string, now: Time)
    ensures Requested(DecidedTask(t, who, decision, verdict, due, message, now))
  {
    var decided, k := DecidedTask(t, who, decision, verdict, due, message, now), ActiveIndex(t.requests);
    assert decision.AskSupplement? ==> decided.requests[if k.Some? then k.value else 0].status.Active?;
  }

  lemma SubmitKeepsTaskRequested(actor: Actor, ctx: SubmitContext, now: Time, first: App, second: App, cur: App, t: nat)
    requires RequestedTasks(cur.tasks) && t < |Submit(actor, ctx, now, first, second, cur).app.tasks|
    ensures Requested(Submit(actor, ctx, now, first, second, cur).app.tasks[t])
  {
    hide SubmitGate, SubmitCriteria, StorePrecheck, SameSubmissionState, MoveEvidence, SupplementCriteria,
      HasSupplementTask, HasActive, EvidenceIds;
  }

  lemma ResubmitKeepsTaskRequested(rq: Request, now: Time, first: App, second: App, cur: App, t: nat)
    requires rq.RqResubmit? || rq.RqAssistantResubmit? || rq.RqEnsureTasks?
    requires RequestedTasks(cur.tasks) && t < |Perform(rq, now, first, second, cur).app.tasks|
    ensures Requested(Perform(rq, now, first, second, cur).app.tasks[t])
  {
    hide ResubmittedRequests, ReadyToResubmit, MoveEvidence, HasSupplementTask, AssistedRequests, EvidenceIds,
      HasActive, MissingCriteria, EnsuredCriteria;
  }

  lemma OthersKeepTaskRequested(rq: Request, now: Time, first: App, second: App, cur: App, t: nat)
    requires !rq.RqSubmit? && !rq.RqEnsureTasks? && !rq.RqResubmit? && !rq.RqAssistantResubmit? && !rq.RqOfficerDecides?
    requires RequestedTasks(cur.tasks) && !AsksWithoutRequest(rq, first, cur)
    requires t < |Perform(rq, now, first, second, cur).app.tasks|
    ensures Requested(Perform(rq, now, first, second, cur).app.tasks[t])
  {
    hide DraftGate, LifecycleGate, ResolvedRow, HasSupplementTask, HasOpenRequest, SuggestedStatus, ProcessedEvidences,
      HasActive;
  }

  lemma StepKeepsTaskRequested(rq: Request, now: Time, first: App, second: App, cur: App, t: nat)
    requires RequestedTasks(cur.tasks) && !AsksWithoutRequest(rq, first, cur)
    requires t < |Perform(rq, now, first, second, cur).app.tasks|
    ensures Requested(Perform(rq, now, first, second, cur).app.tasks[t])
  {
    hide Submit, EnsureTasks, Resubmit, DecidedTask, SyncOutcome, AssistantResubmit, ResolveCase, HasActive,
      AsksWithoutRequest;
    match rq
    case RqSubmit(actor, ctx) => SubmitKeepsTaskRequested(actor, ctx, now, first, second, cur, t);
    case RqOfficerDecides(actor, _, decision, verdict, due, message, _) =>
      if t < |cur.tasks| {
        DecisionKeepsRequested(cur.tasks[t], actor.id, decision, verdict, due, message, now);
      }
    case RqResubmit(_, _, _) =>
      ResubmitKeepsTaskRequested(rq, now, first, second, cur, t);
    case RqAssistantResubmit(_, _) =>
      ResubmitKeepsTaskRequested(rq, now, first, second, cur, t);
    case RqEnsureTasks =>
      ResubmitKeepsTaskRequested(rq, now, first, second, cur, t);
    case _ =>
      OthersKeepTaskRequested(rq, now, first, second, cur, t);
      hide Perform;
  }

  /** Of all steps only such a resolution leaves a task awaiting a supplement without a request. */
  lemma StepKeepsRequestedIff(rq: Request, now: Time, first: App, second: App, cur: App)
    requires RequestedTasks(cur.tasks)
    ensures RequestedTasks(Perform(rq, now, first, second, cur).app.tasks) <==> !AsksWithoutRequest(rq, first, cur)
  {
    var next := Perform(rq, now, first, second, cur).app;
    if AsksWithoutRequest(rq, first, cur) {
      AskingLeavesNoRequest(rq, now, first, second, cur);
    } else {
      hide Perform, AsksWithoutRequest, Requested;
      forall t | 0 <= t < |next.tasks| ensures Requested(next.tasks[t]) {
        StepKeepsTaskRequested(rq, now, first, second, cur, t);
      }
    }
  }

  lemma AskingLeavesNoRequest(rq: Request, now: Time, first: App, second: App, cur: App)
    requires AsksWithoutRequest(rq, first, cur)
    ensures !RequestedTasks(Perform(rq, now, first, second, cur).app.tasks)
  {
    hide ResolvedRow, HasActive;
    var next := Perform(rq, now, first, second, cur).app;
    assert !Requested(next.tasks[rq.related.value]);
  }

  ghost predicate AsksWithoutRequestAt(states: seq<App>, events: seq<Event>, i: nat)
    requires Run(states, events) && i < |events|
  {
    AsksWithoutRequest(events[i].rq, FirstRead(states, events, i), states[i])
  }

  lemma {:induction false} TasksAreRequested(states: seq<App>, events: seq<Event>, i: nat)
    requires Run(states, events) && i < |states| && forall k :: 0 <= k < i ==> !AsksWithoutRequestAt(states, events, k)
    ensures RequestedTasks(states[i].tasks)
  {
    hide Requested, Perform, AsksWithoutRequest;
    if i > 0 {
      TasksAreRequested(states, events, i - 1);
      var e := events[i - 1];
      assert Follows(states, events, i - 1) && !AsksWithoutRequestAt(states, events, i - 1);
      StepKeepsRequestedIff(e.rq, e.now, states[e.first], states[e.second], states[i - 1]);
    }
  }

  /** Throughout a run every task awaiting a supplement has a request for it exactly if no case is resolved that
      way. */
  lemma RunIsRequestedIff(states: seq<App>, events: seq<Event>)
    requires Run(states, events)
    ensures (forall j :: 0 <= j < |states| ==> RequestedTasks(states[j].tasks))
            <==> forall i :: 0 <= i < |events| ==> !AsksWithoutRequestAt(states, events, i)
  {
    hide Perform, AsksWithoutRequest, RequestedTasks;
    if forall i :: 0 <= i < |events| ==> !AsksWithoutRequestAt(states, events, i) {
      forall j | 0 <= j < |states| ensures RequestedTasks(states[j].tasks) {
        TasksAreRequested(states, events, j);
      }
    } else {
      var i :| 0 <= i < |events| && AsksWithoutRequestAt(states, events, i);
      var e := events[i];
      assert Follows(states, events, i);
      if RequestedTasks(states[i].tasks) {
        StepKeepsRequestedIff(e.rq, e.now, states[e.first], states[e.second], states[i]);
      }
    }
  }

  lemma OneActiveIff(requests: seq<SupplementRequest>)
    requires AtMostOneActive(requests)
    ensures ActiveCount(requests) == 1 <==> HasActive(requests)
  {
    ActiveCountOneIff(requests);
    ActiveCountZeroIff(requests);
  }

  /** Over the runs the generic submit stands in for the resubmission of a single outstanding task exactly if the
      task has an active request. */
  lemma GenericSubmitMatchesInRunsIff(
    states: seq<App>, events: seq<Event>, i: nat, actor: Actor, ctx: SubmitContext, now: Time, t: nat)
    requires Run(states, events) && i < |states|
    requires Outstanding(states[i].tasks) == {t} && states[i].row.submittedAt.Some?
    requires Submit(actor, ctx, now, states[i], states[i], states[i]).error.None?
    requires Resubmit(actor, t, true, now, states[i], states[i]).error.None?
    ensures var generic := Submit(actor, ctx, now, states[i], states[i], states[i]).app;
            var single := Resubmit(actor, t, true, now, states[i], states[i]).app;
            && t < |states[i].tasks|
            && (generic.tasks == single.tasks <==> HasActive(states[i].tasks[t].requests))
            && generic.evidences == single.evidences
            && generic.row.status == single.row.status == AppStatus.UnderReview
  {
    hide Submit, Resubmit, Run;
    RequestsAreSound(states, events, i);
    assert t in Outstanding(states[i].tasks);
    assert SoundTask(states[i].tasks[t]);
    OneActiveIff(states[i].tasks[t].requests);
    GenericSubmitMatchesResubmitIff(actor, ctx, now, states[i], t);
  }

  /** So it always does where no case was resolved into a supplement without a request. */
  lemma GenericSubmitMatchesInRuns(
    states: seq<App>, events: seq<Event>, i: nat, actor: Actor, ctx: SubmitContext, now: Time, t: nat)
    requires Run(states, events) && i < |states|
    requires forall k :: 0 <= k < i ==> !AsksWithoutRequestAt(states, events, k)
    requires Outstanding(states[i].tasks) == {t} && states[i].row.submittedAt.Some?
    requires Submit(actor, ctx, now, states[i], states[i], states[i]).error.None?
    requires Resubmit(actor, t, true, now, states[i], states[i]).error.None?
    ensures Submit(actor, ctx, now, states[i], states[i], states[i]).app.tasks
            == Resubmit(actor, t, true, now, states[i], states[i]).app.tasks
  {
    hide Submit, Resubmit, Run, AsksWithoutRequest;
    TasksAreRequested(states, events, i);
    GenericSubmitMatchesInRunsIff(states, events, i, actor, ctx, now, t);
    assert t in Outstanding(states[i].tasks) && Requested(states[i].tasks[t]);
  }

  // ---------- It does happen ----------

  function Escalating(): Request {
    RqOfficerDecides(OFFICER, 0, Escalate, NO_VERDICT, None, "for the committee", [])
  }

  function Escalated(app: App): App
    requires |app.tasks| > 0
  {
    app.(row := app.row.(status := AppStatus.ResolutionNeeded, final := NO_DECISION, updatedAt := 2),
         tasks := app.tasks[0 := app.tasks[0].(status := TaskStatus.ResolutionNeeded, verdict := NO_VERDICT)])
  }

  function Resolving(): Request { RqResolveCase(Some(0), ResolveSupplement, "missing proof", false, []) }

  function ResolvedInto(app: App): App
    requires |app.tasks| > 0
  {
    app.(row := app.row.(status := AppStatus.SupplementRequired, final := NO_DECISION, updatedAt := 3),
         tasks := app.tasks[0 := ResolvedTask(app.tasks[0], app.tasks[0].status, ResolveSupplement, "missing proof")])
  }

  lemma EscalatingFirst(app: App)
    requires app.tasks == FreshTasks(CORE_CRITERIA, []) && app.evidences == [] && app.row.cancelled.None?
    ensures Perform(Escalating(), 2, app, app, app) == Commit(Escalated(app))
  {
    var tasks := app.tasks[0 := DecidedTask(app.tasks[0], OFFICER.id, Escalate, NO_VERDICT, None, "for the committee",
                                            2)];
    assert tasks[0].status.ResolutionNeeded? && tasks == Escalated(app).tasks;
  }

  lemma ResolvingFirst(app: App)
    requires |app.tasks| > 0 && app.evidences == [] && app.row.cancelled.None?
    ensures Perform(Resolving(), 3, app, app, app) == Commit(ResolvedInto(app))
  {
    hide ResolvedTask;
  }

  /** Submitted, escalated by an officer, and the case resolved by asking for a supplement. */
  lemma ResolvedRun() returns (states: seq<App>, events: seq<Event>)
    ensures Run(states, events) && |events| == 3 && states[1].tasks == FreshTasks(CORE_CRITERIA, [])
    ensures states[1].evidences == [] && states[1].row.studentId == STUDENT.id && IndividualCity(states[1].row)
    ensures states[1].row.submittedAt.Some? && states[1].row.cancelled.None?
    ensures states[2] == Escalated(states[1]) && states[3] == ResolvedInto(states[2])
    ensures events[2] == Event(Resolving(), 3, 2, 2)
  {
    states, events := SubmittedRun();
    EscalatingFirst(states[1]);
    ResolvingFirst(Escalated(states[1]));
    assert |states| == 2;
    hide Run, Perform, ResolvedInto;
    ExtendByStep(states, events, Event(Escalating(), 2, 1, 1), Escalated(states[1]));
    states, events := states + [Escalated(states[1])], events + [Event(Escalating(), 2, 1, 1)];
    ExtendByStep(states, events, Event(Resolving(), 3, 2, 2), ResolvedInto(states[2]));
    states, events := states + [ResolvedInto(states[2])], events + [Event(Resolving(), 3, 2, 2)];
  }

  lemma ResolvedHasNoRequest(submitted: App)
    requires submitted.tasks == FreshTasks(CORE_CRITERIA, []) && submitted.evidences == []
    requires submitted.row.studentId == STUDENT.id && IndividualCity(submitted.row) && submitted.row.submittedAt.Some?
    requires submitted.row.cancelled.None?
    ensures var app := Imported(ResolvedInto(Escalated(submitted)), 4);
            && Outstanding(app.tasks) == {0} && app.row.submittedAt.Some?
            && Submit(STUDENT, OPEN_CONTEXT, 5, app, app, app).error.None?
            && Resubmit(STUDENT, 0, true, 5, app, app).error.None?
            && ActiveCount(app.tasks[0].requests) == 0
  {
    var app := Imported(ResolvedInto(Escalated(submitted)), 4);
    assert app.evidences[0].criterion.Ethics? && app.evidences[0].status.UnderReview?;
    assert ReadyToResubmit(app, 0, 5);
    assert 0 in Outstanding(app.tasks);
  }

  /** A case resolved by asking for a supplement leaves the task without a request; then the generic submit and the
      resubmission of the task, both allowed, lead to different tasks. */
  lemma ResolutionTellsRoutesApart()
    ensures exists states: seq<App>, events: seq<Event> ::
              && Run(states, events) && |events| == 4 && AsksWithoutRequestAt(states, events, 2)
              && Outstanding(states[4].tasks) == {0}
              && Submit(STUDENT, OPEN_CONTEXT, 5, states[4], states[4], states[4]).error.None?
              && Resubmit(STUDENT, 0, true, 5, states[4], states[4]).error.None?
              && Submit(STUDENT, OPEN_CONTEXT, 5, states[4], states[4], states[4]).app.tasks
                 != Resubmit(STUDENT, 0, true, 5, states[4], states[4]).app.tasks
  {
    var states, events := ResolvedImportedRun();
    assert AsksWithoutRequestAt(states, events, 2);
    hide *;
    assert Run(states, events);
  }

  lemma ResolvedImportedRun() returns (states: seq<App>, events: seq<Event>)
    ensures Run(states, events) && |events| == 4 && events[2] == Event(Resolving(), 3, 2, 2)
    ensures AsksWithoutRequest(Resolving(), states[2], states[2]) && Outstanding(states[4].tasks) == {0}
    ensures Submit(STUDENT, OPEN_CONTEXT, 5, states[4], states[4], states[4]).error.None?
    ensures Resubmit(STUDENT, 0, true, 5, states[4], states[4]).error.None?
    ensures Submit(STUDENT, OPEN_CONTEXT, 5, states[4], states[4], states[4]).app.tasks
            != Resubmit(STUDENT, 0, true, 5, states[4], states[4]).app.tasks
  {
    states, events := ResolvedRun();
    assert |states| == 4;
    ResolvingAsks(states[1]);
    ResolvedHasNoRequest(states[1]);
    GenericSubmitMatchesResubmitIff(STUDENT, OPEN_CONTEXT, 5, Imported(states[3], 4), 0);
    ExtendByImport(states, events, 4);
    hide *;
    states, events := states + [Imported(states[3], 4)],
      events + [Event(RqImportEvent(ADMIN, "event", Criterion.Ethics, false), 4, 3, 3)];
  }

  lemma ResolvingAsks(submitted: App)
    requires submitted.tasks == FreshTasks(CORE_CRITERIA, []) && submitted.row.cancelled.None?
    ensures AsksWithoutRequest(Resolving(), Escalated(submitted), Escalated(submitted))
  {
  }

  // ---------- Snapshots as a record ----------

  /** The level a sequence of snapshots leads to. */
  function ReplayLevel(snapshots: seq<Snapshot>): Level {
    if snapshots == [] then Level.City
    else
      match snapshots[|snapshots| - 1].content
      case InitialDraft(level) => level
      case DraftSave(chosen) => if chosen.Some? then chosen.value else ReplayLevel(snapshots[..|snapshots| - 1])
      case LevelChange(level, previous) => level
      case Submission(at, level) => level
  }

  /** The time of the first submission among the snapshots. */
  function ReplaySubmission(snapshots: seq<Snapshot>): Option<Time> {
    if snapshots == [] then None
    else
      var before, last := ReplaySubmission(snapshots[..|snapshots| - 1]), snapshots[|snapshots| - 1].content;
      if before.Some? then before else if last.Submission? then Some(last.at) else None
  }

  predicate Replays(app: App) {
    ReplayLevel(app.snapshots) == app.row.targetLevel && ReplaySubmission(app.snapshots) == app.row.submittedAt
  }

  /** What a snapshot says of the state it was written on: a submission names its level, a change of level the
      level it replaces. */
  predicate Truthful(before: seq<Snapshot>, content: SnapshotContent) {
    match content
    case LevelChange(_, previous) => previous == ReplayLevel(before)
    case Submission(_, level) => level == ReplayLevel(before)
    case _ => true
  }

  /** What a step does to the record: the row goes on from it, and a new snapshot is truthful. */
  predicate KeepsRecord(cur: App, next: App) {
    && Replays(next)
    && (next.row.version == cur.row.version ==> next.row.targetLevel == cur.row.targetLevel)
    && (next.snapshots != cur.snapshots ==>
          next.snapshots != [] && Truthful(cur.snapshots, next.snapshots[|next.snapshots| - 1].content))
  }

  lemma SubmitReplays(actor: Actor, ctx: SubmitContext, now: Time, first: App, second: App, cur: App)
    requires Replays(cur) && (first.row.version == cur.row.version ==> first.row.targetLevel == cur.row.targetLevel)
    ensures KeepsRecord(cur, Submit(actor, ctx, now, first, second, cur).app)
  {
    hide FreshTasks, GenericTasks, SubmitCriteria, MoveEvidence, SupplementCriteria, HasSupplementTask, ReplayLevel,
      ReplaySubmission;
    var next := Submit(actor, ctx, now, first, second, cur).app;
    if next.snapshots != cur.snapshots {
      ReplayNext(cur.snapshots, next.snapshots[|cur.snapshots|]);
    }
  }

  lemma DraftReplays(actor: Actor, read: Row, cur: App, level: Option<Level>, content: SnapshotContent, now: Time)
    requires Replays(cur)
    requires read.version == cur.row.version ==> read.targetLevel == cur.row.targetLevel
    requires content == if content.LevelChange? then LevelChange(content.level, read.targetLevel) else DraftSave(level)
    requires content.LevelChange? ==> level == Some(content.level)
    ensures KeepsRecord(cur, DraftCommit(actor, read, cur, level, content, now).app)
  {
    hide ReplayLevel, ReplaySubmission;
    ReplayNext(cur.snapshots, Snapshot(read.version + 1, actor.id, content));
  }

  lemma RecordUntouched(rq: Request, now: Time, first: App, second: App, cur: App)
    requires !rq.RqSubmit? && !rq.RqTargetLevel? && !rq.RqAutosave?
    ensures var next := Perform(rq, now, first, second, cur).app;
            && next.snapshots == cur.snapshots && next.row.version == cur.row.version
            && next.row.targetLevel == cur.row.targetLevel && next.row.submittedAt == cur.row.submittedAt
  {
    if rq.RqVerify? {
      hide BeforeInitialSubmission;
    } else {
      OtherStepsKeepDraft(rq, now, first, second, cur);
      hide Perform;
    }
  }

  lemma StepReplays(rq: Request, now: Time, first: App, second: App, cur: App)
    requires Replays(cur) && (first.row.version == cur.row.version ==> first.row.targetLevel == cur.row.targetLevel)
    ensures KeepsRecord(cur, Perform(rq, now, first, second, cur).app)
  {
    hide Submit, DraftCommit, ReplayLevel, ReplaySubmission;
    match rq
    case RqSubmit(actor, ctx) => SubmitReplays(actor, ctx, now, first, second, cur);
    case RqTargetLevel(actor, level) =>
      DraftReplays(actor, first.row, cur, Some(level), LevelChange(level, first.row.targetLevel), now);
    case RqAutosave(actor, chosen) => DraftReplays(actor, first.row, cur, chosen, DraftSave(chosen), now);
    case _ =>
      RecordUntouched(rq, now, first, second, cur);
      hide Perform;
  }

  lemma ReplayNext(snapshots: seq<Snapshot>, last: Snapshot)
    ensures ReplayLevel(snapshots + [last])
            == match last.content
               case InitialDraft(level) => level
               case DraftSave(chosen) => if chosen.Some? then chosen.value else ReplayLevel(snapshots)
               case LevelChange(level, _) => level
               case Submission(_, level) => level
    ensures ReplaySubmission(snapshots + [last])
            == if ReplaySubmission(snapshots).Some? then ReplaySubmission(snapshots)
               else if last.content.Submission? then Some(last.content.at) else None
  {
    assert (snapshots + [last])[..|snapshots|] == snapshots;
  }

  lemma StartReplays(student: Id, at: Time)
    ensures Replays(Start(student, at))
  {
    var snapshots := Start(student, at).snapshots;
    assert snapshots[..|snapshots| - 1] == [];
  }

  /** Between two states of one version the target level is the same. */
  lemma {:induction false} SameVersionSameLevel(states: seq<App>, events: seq<Event>, i: nat, j: nat)
    requires Run(states, events) && i <= j < |states| && states[i].row.version == states[j].row.version
    ensures states[i].row.targetLevel == states[j].row.targetLevel
    decreases j, 0
  {
    hide Replays;
    if i < j {
      VersionsNeverDecrease(states, events, i, j - 1);
      VersionsNeverDecrease(states, events, j - 1, j);
      SameVersionSameLevel(states, events, i, j - 1);
      StepReplaysAt(states, events, j - 1);
    }
  }

  lemma {:induction false} StepReplaysAt(states: seq<App>, events: seq<Event>, i: nat)
    requires Run(states, events) && i < |events|
    ensures Replays(states[i + 1])
    ensures states[i + 1].row.version == states[i].row.version ==>
              states[i + 1].row.targetLevel == states[i].row.targetLevel
    ensures states[i + 1].snapshots != states[i].snapshots ==>
              |states[i + 1].snapshots| > 0
              && Truthful(states[i].snapshots, states[i + 1].snapshots[|states[i + 1].snapshots| - 1].content)
    decreases i, 1
  {
    hide Replays, Truthful, Perform;
    assert Follows(states, events, i);
    var e := events[i];
    SnapshotsReplayTheRow(states, events, i);
    if states[e.first].row.version == states[i].row.version {
      SameVersionSameLevel(states, events, e.first, i);
    }
    SnapshotsNumberTheVersions(states, events, i + 1);
    StepMovesVersion(e.rq, e.now, states[e.first], states[e.second], states[i]);
    StepReplays(e.rq, e.now, states[e.first], states[e.second], states[i]);
  }

  /** In every interleaving, replaying the snapshots gives the row's target level and first-submission time. */
  lemma {:induction false} SnapshotsReplayTheRow(states: seq<App>, events: seq<Event>, i: nat)
    requires Run(states, events) && i < |states|
    ensures Replays(states[i])
    decreases i, 0
  {
    if i == 0 {
      var student, at :| states[0] == Start(student, at);
      StartReplays(student, at);
    } else {
      hide Replays;
      StepReplaysAt(states, events, i - 1);
    }
  }
}
