/** When a resubmission commits and what it does to the task, its requests and the evidence, told by the rows alone. */
module ResubmissionRules {
  import opened ReviewTypes
  import opened Aggregate
  import opened AggregateRuns
  import opened SubmissionRules

  // ---------- The resubmission of one task ----------

  predicate Awaits(app: App, t: nat) { t < |app.tasks| && app.tasks[t].status == TaskStatus.SupplementRequired }

  predicate HasActive(requests: seq<SupplementRequest>) {
    exists j :: 0 <= j < |requests| && requests[j].status == RequestStatus.Active
  }

  /** What was asked for before requests were stored: the reason, or the officer's note in its place. */
  function AskedBefore(task: Task): string {
    match (task.legacyReason, task.verdict.officerNote)
    case (Some(reason), _) => reason
    case (None, Some(note)) => note
    case (None, None) => ""
  }

  /** No document of the criterion is still being read or waits for a person, one at least has been read, and the
      supplement is not overdue. */
  predicate EvidenceIsIn(app: App, t: nat, now: Time)
    requires t < |app.tasks|
  {
    var own := (e: Evidence) => e.criterion == app.tasks[t].criterion;
    && (forall i :: 0 <= i < |app.evidences| && own(app.evidences[i]) ==>
          && app.evidences[i].indexing !in {IndexingStatus.PendingIndexing, IndexingStatus.OcrProcessing,
                                            IndexingStatus.Extracting, IndexingStatus.CheckingRegistry}
          && match app.evidences[i].card
             case None => true
             case Some(card) =>
               !card.requiresHuman && card.confirmation !in {Some(PendingConfirmation), Some(CorrectionRequired)})
    && (exists i :: 0 <= i < |app.evidences| && own(app.evidences[i])
                    && app.evidences[i].status in {EvidenceStatus.Indexed, EvidenceStatus.NeedsSupplement,
                                                   EvidenceStatus.UnderReview})
    && !(app.tasks[t].dueDate.Some? && app.tasks[t].dueDate.value < now)
  }

  /** A resubmission commits exactly if the student owns the City application and it is not cancelled, the task awaited
      a supplement when it was read and still does, something was asked for, the deadline of an individual City
      application is open, and the evidence is in. */
  lemma ResubmitCommitsIff(actor: Actor, t: nat, deadlineOpen: bool, now: Time, first: App, cur: App)
    ensures Resubmit(actor, t, deadlineOpen, now, first, cur).error.None?
            <==>
            && actor.role == Role.Student && actor.id == first.row.studentId == cur.row.studentId
            && Awaits(first, t) && Awaits(cur, t) && first.row.cancelled.None? && cur.row.cancelled.None?
            && cur.row.targetLevel == Level.City && cur.row.status == AppStatus.SupplementRequired
            && (HasActive(cur.tasks[t].requests) || AskedBefore(cur.tasks[t]) != "")
            && (cur.row.appType == AppType.Individual ==> deadlineOpen)
            && EvidenceIsIn(cur, t, now)
  {
    hide MoveEvidence, HasSupplementTask;
    if Awaits(cur, t) {
      var requests := cur.tasks[t].requests;
      assert HasActive(requests) <==> ActiveIndex(requests).Some?;
      EvidenceIsInIff(cur, t, now);
      hide EvidenceIsIn, ReadyToResubmit, HasActive, ActiveIndex;
    }
  }

  lemma EvidenceIsInIff(app: App, t: nat, now: Time)
    requires t < |app.tasks|
    ensures ReadyToResubmit(app, t, now)
            <==> app.row.status == AppStatus.SupplementRequired && EvidenceIsIn(app, t, now)
  {
  }

  /** The request as it is once it is answered. */
  function Answered(r: SupplementRequest, who: Id, now: Time): SupplementRequest {
    SupplementRequest(RequestStatus.Resubmitted, r.message, Some(now), r.closedAt,
                      r.history + [HistoryItem(now, who, StudentResubmitted)])
  }

  /** The newest active request is answered, and no other; if there is none, what was asked for before becomes the
      newest request, already answered. */
  predicate AnswersNewest(task: Task, after: seq<SupplementRequest>, who: Id, now: Time) {
    if HasActive(task.requests) then
      exists k :: 0 <= k < |task.requests| && task.requests[k].status == RequestStatus.Active
                  && !HasActive(task.requests[..k])
                  && after == task.requests[k := Answered(task.requests[k], who, now)]
    else
      var asked := SupplementRequest(RequestStatus.Active, AskedBefore(task), None, None,
                                     [HistoryItem(now, who, LegacyMigrated)]);
      after == [Answered(asked, who, now)] + task.requests
  }

  /** Exactly the evidence of the criterion is linked on top of what was. */
  predicate LinksAdded(task: Task, after: set<Id>, evidences: seq<Evidence>) {
    && task.links <= after
    && (forall i :: 0 <= i < |evidences| && evidences[i].criterion == task.criterion ==> evidences[i].id in after)
    && (forall id :: id in after && id !in task.links ==>
          exists i :: 0 <= i < |evidences| && evidences[i].criterion == task.criterion && evidences[i].id == id)
  }

  lemma ResubmittedTaskAnswers(task: Task, evidences: seq<Evidence>, who: Id, now: Time)
    requires ResubmittedRequests(task, who, now).Some?
    ensures var after := ResubmittedTask(task, evidences, who, now);
            && after == task.(status := TaskStatus.Waiting, verdict := Verdict(None, None, None, None, None),
                              links := after.links, requests := after.requests)
            && AnswersNewest(task, after.requests, who, now) && LinksAdded(task, after.links, evidences)
  {
    var k := ActiveIndex(task.requests);
    if k.Some? {
      assert !HasActive(task.requests[..k.value]);
    }
  }

  /** A committed resubmission puts its own task back to waiting, without a verdict and with its newest request answered
      and its evidence linked; the other tasks stay, and the application leaves the supplement exactly if none of them
      awaits one. */
  lemma ResubmissionStores(actor: Actor, t: nat, deadlineOpen: bool, now: Time, first: App, cur: App)
    requires Resubmit(actor, t, deadlineOpen, now, first, cur).error.None?
    ensures t < |cur.tasks|
    ensures var next := Resubmit(actor, t, deadlineOpen, now, first, cur).app;
            && |next.tasks| == |cur.tasks|
            && (forall u :: 0 <= u < |cur.tasks| && u != t ==> next.tasks[u] == cur.tasks[u])
            && next.tasks[t] == cur.tasks[t].(status := TaskStatus.Waiting,
                                              verdict := Verdict(None, None, None, None, None),
                                              links := next.tasks[t].links, requests := next.tasks[t].requests)
            && AnswersNewest(cur.tasks[t], next.tasks[t].requests, actor.id, now)
            && LinksAdded(cur.tasks[t], next.tasks[t].links, cur.evidences)
            && next == cur.(row := cur.row.(status := next.row.status, updatedAt := now), tasks := next.tasks,
                            evidences := next.evidences)
            && next.row.status == (if exists u: nat :: u != t && Awaits(cur, u)
                                   then AppStatus.SupplementRequired else AppStatus.UnderReview)
  {
    hide ReadyToResubmit, MoveEvidence, AnswersNewest, LinksAdded, ResubmittedTask, ResubmittedRequests;
    ResubmittedTaskAnswers(cur.tasks[t], cur.evidences, actor.id, now);
    var tasks := Resubmit(actor, t, deadlineOpen, now, first, cur).app.tasks;
    assert tasks[t] == ResubmittedTask(cur.tasks[t], cur.evidences, actor.id, now);
    assert HasSupplementTask(tasks) <==> exists u: nat :: u != t && Awaits(cur, u) by {
      if u: nat :| u < |tasks| && tasks[u].status.SupplementRequired? {
        assert u != t && Awaits(cur, u);
      }
      if u: nat :| u != t && Awaits(cur, u) {
        assert tasks[u].status.SupplementRequired?;
      }
    }
  }

  // ---------- Evidence goes back to review ----------

  /** Evidence of the answered criteria that was still with the student goes to review; all other stays. */
  predicate BackToReview(before: seq<Evidence>, answered: Criterion -> bool, after: seq<Evidence>) {
    && |after| == |before|
    && forall i :: 0 <= i < |before| ==>
         after[i] == if answered(before[i].criterion)
                        && before[i].status in {EvidenceStatus.Draft, EvidenceStatus.PendingIndexing,
                                                EvidenceStatus.Indexed, EvidenceStatus.NeedsSupplement}
                     then before[i].(status := EvidenceStatus.UnderReview) else before[i]
  }

  /** The criteria of the tasks that were read as awaiting a supplement. */
  ghost function AwaitedAt(app: App): Criterion -> bool {
    c => exists t: nat :: Awaits(app, t) && app.tasks[t].criterion == c
  }

  lemma ResubmissionReturnsEvidence(actor: Actor, t: nat, deadlineOpen: bool, now: Time, first: App, cur: App)
    requires Resubmit(actor, t, deadlineOpen, now, first, cur).error.None?
    ensures t < |cur.tasks|
    ensures BackToReview(cur.evidences, c => c == cur.tasks[t].criterion,
                         Resubmit(actor, t, deadlineOpen, now, first, cur).app.evidences)
  {
    hide ReadyToResubmit, ResubmittedTask, ResubmittedRequests, HasSupplementTask;
  }

  /** The assistant's resubmission goes by the criterion of the task as it had read it. */
  lemma AssistantReturnsEvidence(actor: Actor, t: nat, now: Time, first: App, cur: App)
    requires AssistantResubmit(actor, t, now, first, cur).error.None?
    ensures t < |first.tasks|
    ensures BackToReview(cur.evidences, c => c == first.tasks[t].criterion,
                         AssistantResubmit(actor, t, now, first, cur).app.evidences)
  {
    hide ReadyToResubmit, AssistedTask, ResubmittedRequests;
  }

  lemma AwaitedIff(app: App)
    ensures forall c :: AwaitedAt(app)(c) <==> c in SupplementCriteria(app.tasks)
    ensures HasSupplementTask(app.tasks) <==> SupplementCriteria(app.tasks) != {}
  {
    forall c ensures AwaitedAt(app)(c) <==> c in SupplementCriteria(app.tasks) {
      if t: nat :| Awaits(app, t) && app.tasks[t].criterion == c {
        assert app.tasks[t].criterion in SupplementCriteria(app.tasks);
      }
      if c in SupplementCriteria(app.tasks) {
        var t: nat :| t < |app.tasks| && app.tasks[t].status.SupplementRequired? && app.tasks[t].criterion == c;
        assert Awaits(app, t);
      }
    }
    if t: nat :| t < |app.tasks| && app.tasks[t].status.SupplementRequired? {
      assert app.tasks[t].criterion in SupplementCriteria(app.tasks);
    }
  }

  /** A submission returns the evidence of all criteria it had read as awaiting a supplement, if it answers one. */
  lemma SubmissionReturnsEvidence(actor: Actor, ctx: SubmitContext, now: Time, first: App, second: App, cur: App)
    requires Submit(actor, ctx, now, first, second, cur).error.None?
    ensures BackToReview(cur.evidences, c => AnswersSupplement(second.row) && AwaitedAt(first)(c),
                         Submit(actor, ctx, now, first, second, cur).app.evidences)
  {
    AwaitedIff(first);
    hide SubmitGate, FreshTasks, GenericTasks, SubmitCriteria, SameSubmissionState, SupplementCriteria,
      HasSupplementTask, AwaitedAt;
  }

  // ---------- The tasks of a generic resubmission ----------

  /** What a submission that answers a supplement makes of a task: one that awaits a supplement now goes back to waiting
      without a verdict; one that had been read as awaiting it gets its evidence linked and every active request
      answered. */
  predicate Swept(before: Task, after: Task, read: bool, evidences: seq<Evidence>, who: Id, now: Time) {
    && after == before.(status := after.status, verdict := after.verdict, links := after.links,
                        requests := after.requests)
    && (if before.status == TaskStatus.SupplementRequired
        then after.status == TaskStatus.Waiting && after.verdict == Verdict(None, None, None, None, None)
        else after.status == before.status && after.verdict == before.verdict)
    && (if !read then after.links == before.links && after.requests == before.requests
        else
          && LinksAdded(before, after.links, evidences) && |after.requests| == |before.requests|
          && forall j :: 0 <= j < |before.requests| ==>
               after.requests[j] == if before.requests[j].status == RequestStatus.Active
                                    then Answered(before.requests[j], who, now) else before.requests[j])
  }

  lemma GenericTaskIsSwept(task: Task, read: Option<Task>, evidences: seq<Evidence>, who: Id, now: Time)
    ensures Swept(task, GenericTask(task, read, evidences, who, now),
                  read.Some? && read.value.status == TaskStatus.SupplementRequired, evidences, who, now)
  {
  }

  /** A submission that read tasks creates none. If it answers a supplement some task was read as awaiting, every task
      is swept; otherwise they all stay. */
  lemma SubmissionSweeps(actor: Actor, ctx: SubmitContext, now: Time, first: App, second: App, cur: App)
    requires Submit(actor, ctx, now, first, second, cur).error.None? && first.tasks != []
    ensures var next := Submit(actor, ctx, now, first, second, cur).app;
            if AnswersSupplement(second.row) && exists t: nat :: Awaits(first, t) then
              && |next.tasks| == |cur.tasks|
              && forall t: nat :: t < |cur.tasks| ==>
                   Swept(cur.tasks[t], next.tasks[t], Awaits(first, t), first.evidences, actor.id, now)
            else next.tasks == cur.tasks
  {
    hide SubmitGate, MoveEvidence, SubmitCriteria, SameSubmissionState, GenericTask, Swept;
    assert HasSupplementTask(first.tasks) <==> exists t: nat :: Awaits(first, t) by {
      if t: nat :| t < |first.tasks| && first.tasks[t].status.SupplementRequired? {
        assert Awaits(first, t);
      }
    }
    forall t: nat | t < |cur.tasks|
      ensures var read := if t < |first.tasks| then Some(first.tasks[t]) else None;
              Swept(cur.tasks[t], GenericTask(cur.tasks[t], read, first.evidences, actor.id, now), Awaits(first, t),
                    first.evidences, actor.id, now)
    {
      GenericTaskIsSwept(cur.tasks[t], if t < |first.tasks| then Some(first.tasks[t]) else None, first.evidences,
                         actor.id, now);
    }
  }
}
