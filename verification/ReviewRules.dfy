/** What officers, managers and the services around a review may do to an application, when that commits, and what
    exactly it changes. */
module ReviewRules {
  import opened ReviewTypes
  import opened Aggregate
  import opened SubmissionRules
  import opened ResubmissionRules
  import opened LifecycleRules

  const UNDECIDED := FinalDecision(FinalStatus.Pending, None, None, None, None)

  // ---------- The status tasks lead to ----------

  ghost predicate SomeTask(tasks: seq<Task>, statuses: set<TaskStatus>) {
    exists t :: 0 <= t < |tasks| && tasks[t].status in statuses
  }

  ghost predicate AllTasks(tasks: seq<Task>, statuses: set<TaskStatus>) {
    forall t :: 0 <= t < |tasks| ==> tasks[t].status in statuses
  }

  /** The status of an application by its tasks: a supplement comes first, then a case; one that is not individual City
      is closed as failed once all tasks are decided and one is rejected; anything else is under review. A decision
      stays only on what is closed that way. */
  ghost predicate StatusFollows(tasks: seq<Task>, ofCity: bool, now: Time, was: Row, next: Row) {
    var failed := !ofCity && AllTasks(tasks, {TaskStatus.Accepted, TaskStatus.Rejected})
                  && SomeTask(tasks, {TaskStatus.Rejected});
    && (next.status == AppStatus.SupplementRequired <==> SomeTask(tasks, {TaskStatus.SupplementRequired}))
    && (next.status == AppStatus.ResolutionNeeded
        <==> !SomeTask(tasks, {TaskStatus.SupplementRequired}) && SomeTask(tasks, {TaskStatus.ResolutionNeeded}))
    && (next.status == AppStatus.Rejected <==> failed)
    && next.status in {AppStatus.SupplementRequired, AppStatus.ResolutionNeeded, AppStatus.Rejected,
                       AppStatus.UnderReview}
    && next == was.(status := next.status, updatedAt := now,
                    final := if failed then FinalDecision(FinalStatus.Failed, None, Some(AUTO_CLOSED), Some(now),
                                                          was.final.who)
                             else UNDECIDED)
  }

  lemma SyncFollows(row: Row, tasks: seq<Task>, ofCity: bool, now: Time)
    requires tasks != []
    ensures StatusFollows(tasks, ofCity, now, row, SyncOutcome(row, tasks, ofCity, now).(updatedAt := now))
  {
    if AllTasks(tasks, {TaskStatus.Accepted, TaskStatus.Rejected}) {
      assert SomeTask(tasks, {TaskStatus.Rejected})
        <==> !forall i :: 0 <= i < |tasks| ==> tasks[i].status.Accepted?;
    }
  }

  lemma ResolutionFollows(row: Row, tasks: seq<Task>, ofCity: bool, now: Time)
    ensures StatusFollows(tasks, ofCity, now, row,
                          ResolvedRow(row, NoAction, false, tasks, ofCity, now).(updatedAt := now))
  {
  }

  // ---------- Officers ----------

  predicate Decides(actor: Actor) { actor.role in {Role.Manager, Role.CityManager, Role.Admin} }

  /** What an officer's decision makes of the task. A supplement is put into the newest active request, or into a new
      one if there is none. */
  predicate DecidedAs(before: Task, after: Task, who: Id, decision: Decision, verdict: Verdict, dueDate: Option<Time>,
                      message: string, now: Time)
  {
    var asks := decision == AskSupplement;
    && after == before.(status := after.status, verdict := verdict, requests := after.requests,
                        legacyReason := if asks then Some(message) else before.legacyReason,
                        dueDate := if asks && dueDate != None then dueDate else before.dueDate)
    && (after.status == TaskStatus.Accepted <==> decision == Accept)
    && (after.status == TaskStatus.Rejected <==> decision == Reject)
    && (after.status == TaskStatus.SupplementRequired <==> asks)
    && (after.status == TaskStatus.ResolutionNeeded <==> decision == Escalate)
    && (if !asks then after.requests == before.requests
        else if HasActive(before.requests) then
          exists k :: 0 <= k < |before.requests| && before.requests[k].status == RequestStatus.Active
                      && !HasActive(before.requests[..k])
                      && after.requests
                         == before.requests[k := before.requests[k].(
                              message := message,
                              history := before.requests[k].history + [HistoryItem(now, who, OfficerUpdated)])]
        else
          after.requests
          == [SupplementRequest(RequestStatus.Active, message, None, None, [HistoryItem(now, who, OfficerCreated)])]
             + before.requests)
  }

  lemma DecidedTaskIs(before: Task, who: Id, decision: Decision, verdict: Verdict, dueDate: Option<Time>,
                      message: string, now: Time)
    ensures DecidedAs(before, DecidedTask(before, who, decision, verdict, dueDate, message, now), who, decision,
                      verdict, dueDate, message, now)
  {
    var k := ActiveIndex(before.requests);
    if k.Some? {
      assert !HasActive(before.requests[..k.value]);
    }
  }

  /** An officer's decision commits exactly if the application is not cancelled, only managers change a decision once
      taken, and on individual City the task is still as it was read. The status of the application follows its
      tasks. */
  lemma OfficerDecidesIff(actor: Actor, t: nat, decision: Decision, verdict: Verdict, dueDate: Option<Time>,
                          message: string, evidences: seq<Evidence>, now: Time, first: App, cur: App)
    ensures var outcome := OfficerDecides(actor, t, decision, verdict, dueDate, message, evidences, now, first, cur);
            && (outcome.error == None
                <==> cur.row.cancelled == None && t < |first.tasks| && t < |cur.tasks|
                     && (first.tasks[t].status in {TaskStatus.Accepted, TaskStatus.Rejected} ==> Decides(actor))
                     && (OfCity(first.row) ==>
                           first.tasks[t].status == cur.tasks[t].status
                           && first.tasks[t].verdict.decision == cur.tasks[t].verdict.decision))
            && (outcome.error != None ==> outcome.app == cur)
            && (outcome.error == None ==>
                  var next := outcome.app;
                  && |next.tasks| == |cur.tasks|
                  && (forall u :: 0 <= u < |cur.tasks| && u != t ==> next.tasks[u] == cur.tasks[u])
                  && DecidedAs(cur.tasks[t], next.tasks[t], actor.id, decision, verdict, dueDate, message, now)
                  && StatusFollows(next.tasks, OfCity(first.row), now, cur.row, next.row)
                  && next == cur.(row := next.row, tasks := next.tasks, evidences := evidences))
  {
    hide DecidedAs, DecidedTask, StatusFollows, SyncOutcome;
    if t < |cur.tasks| {
      DecidedTaskIs(cur.tasks[t], actor.id, decision, verdict, dueDate, message, now);
      var tasks := cur.tasks[t := DecidedTask(cur.tasks[t], actor.id, decision, verdict, dueDate, message, now)];
      SyncFollows(cur.row, tasks, OfCity(first.row), now);
    }
  }

  /** Claiming takes an undecided task of an application that is not cancelled, in the status it was read in; a waiting
      task becomes one under review, any other stays. */
  lemma ClaimIff(t: nat, first: App, cur: App)
    ensures var outcome := Claim(t, first, cur);
            && (outcome.error == None
                <==> t < |first.tasks| && t < |cur.tasks| && cur.row.cancelled == None
                     && cur.tasks[t].status == first.tasks[t].status && cur.tasks[t].verdict.decision == None)
            && outcome.app
               == if outcome.error == None && cur.tasks[t].status == TaskStatus.Waiting
                  then cur.(tasks := cur.tasks[t := cur.tasks[t].(status := TaskStatus.Reviewing)]) else cur
  {
  }

  // ---------- Managers ----------

  /** The suggestion to a manager by the tasks: the most pressing one decides, and complete are only accepted ones. */
  ghost predicate Suggests(tasks: seq<Task>, status: AppStatus) {
    && (status == AppStatus.SupplementRequired <==> SomeTask(tasks, {TaskStatus.SupplementRequired}))
    && (status == AppStatus.ResolutionNeeded
        <==> !SomeTask(tasks, {TaskStatus.SupplementRequired}) && SomeTask(tasks, {TaskStatus.ResolutionNeeded}))
    && (status == AppStatus.Completed <==> tasks != [] && AllTasks(tasks, {TaskStatus.Accepted}))
    && status in {AppStatus.SupplementRequired, AppStatus.ResolutionNeeded, AppStatus.Completed, AppStatus.UnderReview}
  }

  lemma SuggestionIs(tasks: seq<Task>)
    ensures Suggests(tasks, SuggestedStatus(tasks))
  {
    if tasks != [] {
      assert tasks[0].status in {TaskStatus.Accepted} ==> tasks[0].status.Accepted?;
    }
  }

  /** Aggregating takes a manager, of City for an individual City application, that is not cancelled, and stores the
      suggestion by the tasks as they were read. */
  lemma AggregateIff(actor: Actor, now: Time, first: App, cur: App)
    ensures var outcome := AggregateReview(actor, now, first, cur);
            && (outcome.error == None
                <==> actor.role !in {Role.Student, Role.Officer} && cur.row.cancelled == None
                     && (OfCity(first.row) ==> actor.role in {Role.CityManager, Role.Admin}))
            && (outcome.error != None ==> outcome.app == cur)
            && (outcome.error == None ==>
                  && outcome.app == cur.(row := cur.row.(status := outcome.app.row.status, updatedAt := now))
                  && Suggests(first.tasks, outcome.app.row.status))
  {
    hide SuggestedStatus, Suggests;
    SuggestionIs(first.tasks);
  }

  /** Finalizing takes a result other than pending and an application that is not cancelled and was read undecided; an
      individual City application must still be so. A failed one is rejected and gets no level. */
  lemma FinalizeIff(actor: Actor, status: FinalStatus, level: Option<Level>, note: Option<string>, now: Time,
                    first: App, cur: App)
    ensures var outcome := Finalize(actor, status, level, note, now, first, cur);
            && (outcome.error == None
                <==> status != FinalStatus.Pending && first.row.cancelled == None && cur.row.cancelled == None
                     && !HasResult(first.row) && (OfCity(first.row) ==> !HasResult(cur.row)))
            && outcome.app
               == if outcome.error != None then cur
                  else if status == FinalStatus.Failed then
                    cur.(row := cur.row.(status := AppStatus.Rejected, updatedAt := now,
                                         final := FinalDecision(FinalStatus.Failed, None, note, Some(now),
                                                                Some(actor.id))))
                  else
                    cur.(row := cur.row.(status := AppStatus.Completed, updatedAt := now,
                                         final := FinalDecision(status, level, note, Some(now), Some(actor.id))))
  {
  }

  /** Reopening a result takes one who may decide on City for an individual City application, and no cancellation. What
      is not closed stays; what is closed loses its decision to the history and goes back to review, or to its student
      if so asked. */
  lemma ReopenFinalIff(actor: Actor, reason: string, toSupplement: bool, now: Time, first: App, cur: App)
    ensures var outcome, was := ReopenFinal(actor, reason, toSupplement, now, first, cur), cur.row;
            && (outcome.error == None
                <==> cur.row.cancelled == None
                     && (OfCity(first.row) ==> actor.role in {Role.CityManager, Role.CityCommittee, Role.Admin}))
            && outcome.app
               == if outcome.error != None || !IsClosed(was) then cur
                  else cur.(row := was.(status := if toSupplement then AppStatus.SupplementRequired
                                                  else AppStatus.UnderReview, final := UNDECIDED, updatedAt := now),
                            finalHistory := if HasResult(was)
                                            then cur.finalHistory + [Superseded(was.final, now, actor.id, reason)]
                                            else cur.finalHistory)
  {
  }

  /** The criteria the repair of tasks asks for. */
  predicate Wanted(first: App, c: Criterion) {
    || c in {Criterion.Ethics, Criterion.Academic, Criterion.Physical, Criterion.Volunteer, Criterion.Integration}
    || (c in {Criterion.Priority, Criterion.Collective} && !OfCity(first.row)
        && exists i :: 0 <= i < |first.evidences| && first.evidences[i].criterion == c)
  }

  predicate HasTask(tasks: seq<Task>, c: Criterion) { exists t :: 0 <= t < |tasks| && tasks[t].criterion == c }

  lemma {:induction false} MissingIff(criteria: seq<Criterion>, tasks: seq<Task>, c: Criterion)
    ensures c in MissingCriteria(criteria, tasks) <==> c in criteria && !HasTask(tasks, c)
  {
    if criteria != [] {
      MissingIff(criteria[1..], tasks, c);
      assert c in criteria <==> c == criteria[0] || c in criteria[1..];
    }
  }

  lemma WantedIff(first: App, c: Criterion)
    ensures c in EnsuredCriteria(first) <==> Wanted(first, c)
  {
  }

  /** The repair takes an application that was read in review and is not cancelled. It appends new tasks for exactly the
      wanted criteria that have none, and puts a submitted application under review. */
  lemma EnsureTasksIff(now: Time, first: App, cur: App)
    ensures var outcome := EnsureTasks(now, first, cur);
            && (outcome.error == None
                <==> cur.row.cancelled == None
                     && first.row.status in {AppStatus.Submitted, AppStatus.UnderReview, AppStatus.SupplementRequired,
                                             AppStatus.ResolutionNeeded})
            && (outcome.error != None ==> outcome.app == cur)
            && (outcome.error == None ==>
                  var next, n := outcome.app, |cur.tasks|;
                  && next == cur.(row := next.row, tasks := next.tasks) && cur.tasks <= next.tasks
                  && next.row == (if first.row.status == AppStatus.Submitted
                                  then cur.row.(status := AppStatus.UnderReview, updatedAt := now) else cur.row)
                  && (forall t :: n <= t < |next.tasks| ==>
                        && NewTask(next.tasks[t], first.evidences)
                        && Wanted(first, next.tasks[t].criterion) && !HasTask(cur.tasks, next.tasks[t].criterion))
                  && forall c :: Wanted(first, c) ==> HasTask(next.tasks, c))
  {
    hide EnsuredCriteria, MissingCriteria, FreshTask, NewTask, Wanted;
    var criteria := EnsuredCriteria(first);
    var missing := MissingCriteria(criteria, cur.tasks);
    FreshTasksAreNew(missing, first.evidences);
    forall c ensures (c in missing <==> c in criteria && !HasTask(cur.tasks, c))
                     && (c in criteria <==> Wanted(first, c)) {
      MissingIff(criteria, cur.tasks, c);
      WantedIff(first, c);
    }
    var tasks := cur.tasks + FreshTasks(missing, first.evidences);
    forall t | |cur.tasks| <= t < |tasks|
      ensures NewTask(tasks[t], first.evidences) && tasks[t].criterion in missing
    {
      assert tasks[t] == FreshTasks(missing, first.evidences)[t - |cur.tasks|];
    }
    forall c | Wanted(first, c) ensures HasTask(tasks, c) {
      if c in missing {
        var k :| 0 <= k < |missing| && missing[k] == c;
        assert tasks[|cur.tasks| + k].criterion == c;
      } else {
        var t :| 0 <= t < |cur.tasks| && cur.tasks[t].criterion == c;
        assert tasks[t].criterion == c;
      }
    }
  }

  // ---------- Cases ----------

  /** What resolving a case makes of its task: the decision and the note; without one the status stands as it was read,
      or goes back to review if it was escalated. */
  predicate ResolvedAs(before: Task, after: Task, read: TaskStatus, resolution: Resolution, note: string) {
    && after == before.(status := after.status, verdict := after.verdict)
    && after.verdict == before.verdict.(officerNote := Some(note), decision := after.verdict.decision)
    && (after.status, after.verdict.decision)
       == match resolution
          case ResolveAccept => (TaskStatus.Accepted, Some(Accept))
          case ResolveReject => (TaskStatus.Rejected, Some(Reject))
          case ResolveSupplement => (TaskStatus.SupplementRequired, Some(AskSupplement))
          case NoAction =>
            (if read == TaskStatus.ResolutionNeeded then TaskStatus.Reviewing else read, before.verdict.decision)
  }

  lemma ResolvedTaskIs(before: Task, read: TaskStatus, resolution: Resolution, note: string)
    ensures ResolvedAs(before, ResolvedTask(before, read, resolution, note), read, resolution, note)
  {
  }

  /** Resolving a case takes an application that is not cancelled. A supplement asked for puts it with its student,
      another open case keeps it on hold, and else its status follows the tasks as they then are; but for an
      application closed as failed no decision stays. */
  lemma ResolveCaseIff(task: Option<nat>, resolution: Resolution, note: string, openCases: bool,
                       evidences: seq<Evidence>, now: Time, first: App, cur: App)
    ensures var outcome := ResolveCase(task, resolution, note, openCases, evidences, now, first, cur);
            && (outcome.error == None
                <==> cur.row.cancelled == None
                     && (task != None ==> task.value < |first.tasks| && task.value < |cur.tasks|))
            && (outcome.error != None ==> outcome.app == cur)
            && (outcome.error == None ==>
                  var next := outcome.app;
                  && next == cur.(row := next.row, tasks := next.tasks, evidences := evidences)
                  && |next.tasks| == |cur.tasks|
                  && (forall u :: 0 <= u < |cur.tasks| && task != Some(u) ==> next.tasks[u] == cur.tasks[u])
                  && (task != None ==> ResolvedAs(cur.tasks[task.value], next.tasks[task.value],
                                                  first.tasks[task.value].status, resolution, note))
                  && (if resolution == ResolveSupplement then
                        next.row
                        == cur.row.(status := AppStatus.SupplementRequired, final := UNDECIDED, updatedAt := now)
                      else if openCases then
                        next.row == cur.row.(status := AppStatus.ResolutionNeeded, final := UNDECIDED, updatedAt := now)
                      else StatusFollows(next.tasks, OfCity(first.row), now, cur.row, next.row)))
  {
    hide ResolvedAs, ResolvedTask, StatusFollows, ClosesAsFailed;
    if task != None && task.value < |cur.tasks| && task.value < |first.tasks| {
      ResolvedTaskIs(cur.tasks[task.value], first.tasks[task.value].status, resolution, note);
    }
    var tasks := ResolveCase(task, resolution, note, openCases, evidences, now, first, cur).app.tasks;
    ResolutionFollows(cur.row, tasks, OfCity(first.row), now);
  }

  /** Reopening a case puts an application that is not cancelled back on hold and leaves its decision. */
  lemma ReopenCaseIff(now: Time, cur: App)
    ensures var outcome := ReopenCase(now, cur);
            && (outcome.error == None <==> cur.row.cancelled == None)
            && outcome.app == if outcome.error != None then cur
                              else cur.(row := cur.row.(status := AppStatus.ResolutionNeeded, updatedAt := now))
  {
  }

  // ---------- Evidence and prechecks ----------

  /** A precheck always stores its result: read in the hands of a student who was not asked for a supplement, an
      application becomes ready or prechecked by it, whatever it has become since; any other keeps its status. */
  lemma PrecheckStores(ready: bool, now: Time, first: App, cur: App)
    ensures Precheck(ready, now, first, cur)
            == Commit(cur.(row := cur.row.(
                 updatedAt := now,
                 status := if first.row.status !in {AppStatus.Draft, AppStatus.Prechecked, AppStatus.ReadyToSubmit}
                           then cur.row.status
                           else if ready then AppStatus.ReadyToSubmit else AppStatus.Prechecked)))
  {
  }

  /** Evidence is changed by hand exactly if the application is not cancelled, and nothing else changes. */
  lemma ChangeEvidenceIff(evidences: seq<Evidence>, cur: App)
    ensures var outcome := ChangeEvidence(evidences, cur);
            && (outcome.error == None <==> cur.row.cancelled == None)
            && outcome.app == if outcome.error == None then cur.(evidences := evidences) else cur
  {
  }

  /** Staff may import an event into any application. A student may into the own one while it is in the student's hands,
      and during a supplement only for a criterion that awaits one. It becomes evidence under review, unless it is
      there already; whether the application is cancelled does not matter. */
  lemma ImportEventIff(actor: Actor, id: Id, criterion: Criterion, known: bool, now: Time, first: App, cur: App)
    ensures var outcome := ImportEvent(actor, id, criterion, known, now, first, cur);
            && (outcome.error == None
                <==> (actor.role == Role.Student ==>
                        && actor.id == first.row.studentId && WithStudent(first.row.status)
                        && (first.row.status == AppStatus.SupplementRequired ==>
                              exists t: nat :: Awaits(first, t) && first.tasks[t].criterion == criterion)))
            && outcome.app
               == if outcome.error != None || known then cur
                  else cur.(row := cur.row.(updatedAt := now),
                            evidences := cur.evidences
                              + [Evidence(id, criterion, EvidenceStatus.UnderReview, IndexingStatus.Indexed,
                                          Some(Card(false, Some(NotRequired))))])
  {
    assert (exists t: nat :: Awaits(first, t) && first.tasks[t].criterion == criterion)
      <==> exists i :: 0 <= i < |first.tasks| && first.tasks[i].criterion == criterion
                       && first.tasks[i].status.SupplementRequired? by {
      if i :| 0 <= i < |first.tasks| && first.tasks[i].criterion == criterion
              && first.tasks[i].status.SupplementRequired? {
        assert Awaits(first, i);
      }
    }
  }

  /** What the analysis of a document leaves of it. A result, and that it cannot be read, change its status only while
      the application is not cancelled; a new attempt always does. */
  predicate AnalysedAs(before: Evidence, after: Evidence, result: Processed, cancelled: bool) {
    && after == before.(status := after.status, indexing := after.indexing, card := after.card)
    && (result.Analysed? || after.card == before.card)
    && match result
       case Progress(stage) => after.indexing == stage && after.status == before.status
       case Analysed(indexing, status, card) =>
         after.indexing == indexing && after.card == Some(card)
         && after.status == if cancelled then before.status else status
       case Requeued =>
         after.indexing == IndexingStatus.PendingIndexing && after.status == EvidenceStatus.PendingIndexing
       case Unreadable =>
         after.indexing == IndexingStatus.NeedsManualReview
         && after.status == if cancelled then before.status else EvidenceStatus.NeedsSupplement
       case Broken => after.indexing == IndexingStatus.Failed && after.status == before.status
  }

  /** The analysis of a document always commits and touches that evidence alone. */
  lemma ProcessEvidenceStores(id: Id, result: Processed, cur: App)
    ensures var outcome := ProcessEvidence(id, result, cur);
            && outcome.error == None && outcome.app == cur.(evidences := outcome.app.evidences)
            && |outcome.app.evidences| == |cur.evidences|
            && forall i :: 0 <= i < |cur.evidences| ==>
                 if cur.evidences[i].id == id
                 then AnalysedAs(cur.evidences[i], outcome.app.evidences[i], result, cur.row.cancelled != None)
                 else outcome.app.evidences[i] == cur.evidences[i]
  {
  }

  /** The assistant resubmits a task exactly if what it had read would have let the student do so, but for the deadline
      of the season, and the task is there; it does not ask for a cancellation or whether the task still awaits a
      supplement. The task goes back to waiting and the application under review. */
  lemma AssistantResubmitIff(actor: Actor, t: nat, now: Time, first: App, cur: App)
    ensures var outcome := AssistantResubmit(actor, t, now, first, cur);
            && (outcome.error == None
                <==> actor.role == Role.Student && actor.id == first.row.studentId && Awaits(first, t)
                     && first.row.targetLevel == Level.City && first.row.status == AppStatus.SupplementRequired
                     && (HasActive(first.tasks[t].requests) || AskedBefore(first.tasks[t]) != "")
                     && EvidenceIsIn(first, t, now) && t < |cur.tasks|)
            && (outcome.error != None ==> outcome.app == cur)
            && (outcome.error == None ==>
                  var next := outcome.app;
                  && next == cur.(row := cur.row.(status := AppStatus.UnderReview, updatedAt := now),
                                  tasks := next.tasks, evidences := next.evidences)
                  && |next.tasks| == |cur.tasks|
                  && (forall u :: 0 <= u < |cur.tasks| && u != t ==> next.tasks[u] == cur.tasks[u])
                  && next.tasks[t] == cur.tasks[t].(status := TaskStatus.Waiting,
                                                    verdict := Verdict(None, None, None, None, None),
                                                    links := next.tasks[t].links, requests := next.tasks[t].requests)
                  && LinksAdded(cur.tasks[t].(criterion := first.tasks[t].criterion), next.tasks[t].links,
                                first.evidences))
  {
    hide MoveEvidence, AssistedRequests, LinksAdded;
    if Awaits(first, t) {
      var requests := first.tasks[t].requests;
      assert HasActive(requests) <==> ActiveIndex(requests).Some?;
      EvidenceIsInIff(first, t, now);
      hide EvidenceIsIn, ReadyToResubmit, HasActive, ActiveIndex;
      if t < |cur.tasks| {
        LinksAreAdded(cur.tasks[t].(criterion := first.tasks[t].criterion), first.evidences);
      }
    }
  }

  lemma LinksAreAdded(task: Task, evidences: seq<Evidence>)
    ensures LinksAdded(task, task.links + EvidenceIds(evidences, task.criterion), evidences)
  {
  }
}
