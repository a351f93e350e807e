/** Who may cancel, reopen, archive and restore an application, decide on its eligibility or save its draft, when that
    commits, and what exactly it changes. */
module LifecycleRules {
  import opened ReviewTypes
  import opened Aggregate
  import opened SubmissionRules

  /** City managers and administrators, on individual City applications. */
  predicate ManagesCity(actor: Actor, read: Row) { actor.role in {Role.CityManager, Role.Admin} && OfCity(read) }

  /** A final result or the time of one stands on the row. */
  predicate HasResult(row: Row) { row.final.status != FinalStatus.Pending || row.final.at != None }

  predicate IsClosed(row: Row) { row.status in {AppStatus.Completed, AppStatus.Rejected} }

  /** Something is left for the student to answer: a task that awaits a supplement, or a request that is neither
      answered nor closed, whatever its task has become. */
  ghost predicate LeftToAnswer(tasks: seq<Task>) {
    exists t: nat :: t < |tasks| && (tasks[t].status == TaskStatus.SupplementRequired
      || exists r :: r in tasks[t].requests && r.status == RequestStatus.Active && r.resubmittedAt == None
                     && r.closedAt == None)
  }

  lemma LeftToAnswerIff(tasks: seq<Task>)
    ensures LeftToAnswer(tasks) <==> HasSupplementTask(tasks) || HasOpenRequest(tasks)
  {
    if LeftToAnswer(tasks) && !HasSupplementTask(tasks) {
      var t: nat, r :| t < |tasks| && r in tasks[t].requests && r.status == RequestStatus.Active
                       && r.resubmittedAt == None && r.closedAt == None;
      var j :| 0 <= j < |tasks[t].requests| && tasks[t].requests[j] == r;
      assert Unanswered(tasks[t].requests[j]);
    }
    if HasOpenRequest(tasks) {
      var t: nat, j: nat :| t < |tasks| && j < |tasks[t].requests| && Unanswered(tasks[t].requests[j]);
      assert tasks[t].requests[j] in tasks[t].requests;
    }
  }

  /** Cancelling takes one who manages City, an application that is not cancelled yet, and something to cancel: a
      submission or a decision. The decision, if there is one, goes to the history and off the row. */
  lemma CancelIff(actor: Actor, reason: string, now: Time, first: App, cur: App)
    ensures var outcome, was := Cancel(actor, reason, now, first, cur), cur.row;
            && (outcome.error == None <==> ManagesCity(actor, first.row) && was.cancelled == None
                                           && (was.submittedAt != None || HasResult(was)))
            && outcome.app
               == if outcome.error != None then cur
                  else if HasResult(was) then
                    cur.(row := was.(cancelled := Some(Stamp(now, actor.id, Some(reason))), updatedAt := now,
                                     final := FinalDecision(FinalStatus.Pending, None, None, None, None)),
                         finalHistory := cur.finalHistory + [Superseded(was.final, now, actor.id, reason)])
                  else cur.(row := was.(cancelled := Some(Stamp(now, actor.id, Some(reason))), updatedAt := now))
  {
  }

  /** Reopening takes one who manages City and a cancelled application. An application closed by a decision since
      superseded goes back to its student if anything is left to answer there, and under review otherwise; any other
      keeps its status. Cancellation and archive are lifted. */
  lemma ReopenCancelledIff(actor: Actor, now: Time, first: App, cur: App)
    ensures var outcome, was := ReopenCancelled(actor, now, first, cur), cur.row;
            && (outcome.error == None <==> ManagesCity(actor, first.row) && was.cancelled != None)
            && outcome.app
               == if outcome.error != None then cur
                  else cur.(row := was.(cancelled := None, archived := None, updatedAt := now,
                                        status := if !IsClosed(was) || cur.finalHistory == [] then was.status
                                                  else if LeftToAnswer(cur.tasks) then AppStatus.SupplementRequired
                                                  else AppStatus.UnderReview))
  {
    hide HasSupplementTask, HasOpenRequest, LeftToAnswer;
    LeftToAnswerIff(cur.tasks);
  }

  /** Archiving takes an application that is closed or cancelled and not archived; restoring, one that is. */
  lemma ArchivingIff(actor: Actor, reason: Option<string>, now: Time, first: App, cur: App)
    ensures var outcome, was := Archive(actor, reason, now, first, cur), cur.row;
            && (outcome.error == None <==> ManagesCity(actor, first.row) && was.archived == None
                                           && (IsClosed(was) || was.cancelled != None))
            && outcome.app == if outcome.error != None then cur
                              else cur.(row := was.(archived := Some(Stamp(now, actor.id, reason)), updatedAt := now))
    ensures var outcome, was := Unarchive(actor, now, first, cur), cur.row;
            && (outcome.error == None <==> ManagesCity(actor, first.row) && was.archived != None)
            && outcome.app == if outcome.error != None then cur
                              else cur.(row := was.(archived := None, updatedAt := now))
  {
  }

  /** Asking a student for a supplement takes a manager, one of City for an individual City application, and neither
      the application read nor the one locked may be cancelled; only the status changes. */
  lemma ReopenSupplementIff(actor: Actor, now: Time, first: App, cur: App)
    ensures var outcome := ReopenSupplement(actor, now, first, cur);
            && (outcome.error == None
                <==> (actor.role in {Role.CityManager, Role.Admin}
                      || (actor.role == Role.Manager && !OfCity(first.row)))
                     && first.row.cancelled == None && cur.row.cancelled == None)
            && outcome.app == if outcome.error != None then cur
                              else cur.(row := cur.row.(status := AppStatus.SupplementRequired, updatedAt := now))
  {
  }

  predicate BeforeSubmission(row: Row) { OfCity(row) && row.submittedAt == None && WithStudent(row.status) }

  /** A City manager decides on eligibility while the application was and is in the student's hands, never submitted,
      not cancelled, and a verdict is needed. The verdict names the basis it was given on, and the update time moves
      forward past it. */
  lemma VerdictIff(actor: Actor, approved: bool, basisHash: string, needsVerification: bool, now: Time, first: App,
                   cur: App)
    ensures var outcome := VerifyEligibility(actor, approved, basisHash, needsVerification, now, first, cur);
            && (outcome.error == None
                <==> actor.role == Role.CityManager && needsVerification
                     && BeforeSubmission(first.row) && BeforeSubmission(cur.row) && cur.row.cancelled == None)
            && (outcome.error != None ==> outcome.app == cur)
            && (outcome.error == None ==>
                  var at := outcome.app.row.updatedAt;
                  && at > cur.row.updatedAt && at >= now && (now > cur.row.updatedAt ==> at == now)
                  && outcome.app == cur.(row := cur.row.(updatedAt := at),
                                         verification := Some(Verification(approved, basisHash, actor.id, at))))
  {
    assert cur == cur.(row := cur.row);
  }

  /** A draft is saved exactly if the owner, or an administrator, had read it in the student's hands and not cancelled,
      and so it still is at the same version; students do not choose the level. It gets the next version and one
      snapshot of that version by its author. */
  lemma DraftSavedIff(actor: Actor, level: Option<Level>, content: SnapshotContent, outcome: Outcome, now: Time,
                      first: App, cur: App)
    requires (level.Some? && content == LevelChange(level.value, first.row.targetLevel)
              && outcome == UpdateTargetLevel(actor, level.value, now, first, cur))
             || (content == DraftSave(level) && outcome == AutosaveDraft(actor, level, now, first, cur))
    ensures outcome.error == None
            <==> (actor.role == Role.Admin || actor.id == first.row.studentId)
                 && (actor.role == Role.Student ==> level == None)
                 && WithStudent(first.row.status) && WithStudent(cur.row.status)
                 && first.row.cancelled == None && cur.row.cancelled == None
                 && first.row.version == cur.row.version
    ensures outcome.app
            == if outcome.error != None then cur
               else cur.(row := cur.row.(version := cur.row.version + 1, updatedAt := now,
                                         targetLevel := if level != None then level.value else cur.row.targetLevel),
                         snapshots := cur.snapshots + [Snapshot(cur.row.version + 1, actor.id, content)])
  {
  }
}
