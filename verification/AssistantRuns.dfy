/** The assistant's resubmission, a third route for a supplement: it decides on what it read and takes no lock. */
module AssistantRuns {
  import opened ReviewTypes
  import opened Aggregate
  import opened AggregateRuns
  import opened SupplementRuns
  import opened RequestRuns

  /** With nothing changed since it read, the assistant does to task, requests and evidence what the per-task
      resubmission does. It always puts the application under review, which is the same exactly if no other task is
      outstanding. */
  lemma AssistantMatchesResubmitIff(actor: Actor, now: Time, app: App, t: nat)
    requires AssistantResubmit(actor, t, now, app, app).error.None?
    requires Resubmit(actor, t, true, now, app, app).error.None?
    ensures var assisted := AssistantResubmit(actor, t, now, app, app).app;
            var single := Resubmit(actor, t, true, now, app, app).app;
            && assisted == single.(row := single.row.(status := AppStatus.UnderReview))
            && (assisted == single <==> Outstanding(app.tasks) == {t})
  {
    hide ReadyToResubmit, MoveEvidence, HasSupplementTask;
    SingleOutcome(actor, t, now, app);
    var assisted, single := AssistantResubmit(actor, t, now, app, app).app, Resubmit(actor, t, true, now, app, app).app;
    assert assisted.tasks == single.tasks;
    OutstandingIff(single.tasks);
    assert Outstanding(single.tasks) == Outstanding(app.tasks) - {t};
    assert t in Outstanding(app.tasks);
  }

  /** A task that is outstanding besides stays so, and with the application under review no route is left to
      answer it. */
  lemma OthersAreLeftBehind(actor: Actor, t: nat, u: nat, now: Time, first: App, cur: App)
    requires AssistantResubmit(actor, t, now, first, cur).error.None?
    requires u != t && u in Outstanding(cur.tasks)
    ensures var next := AssistantResubmit(actor, t, now, first, cur).app;
            && next.row.status.UnderReview? && u in Outstanding(next.tasks)
            && forall who, later, open, ctx :: NoRoute(next, u, who, later, open, ctx)
  {
    hide AssistedTask, MoveEvidence, NoRoute;
    var next := AssistantResubmit(actor, t, now, first, cur).app;
    forall who, later, open, ctx ensures NoRoute(next, u, who, later, open, ctx) {
      UnderReviewHasNoRoute(next, u, who, later, open, ctx);
    }
  }

  /** None of the three ways to answer a supplement is open. */
  predicate NoRoute(app: App, u: nat, who: Actor, now: Time, open: bool, ctx: SubmitContext) {
    && Resubmit(who, u, open, now, app, app).error.Some?
    && AssistantResubmit(who, u, now, app, app).error.Some?
    && Submit(who, ctx, now, app, app, app).error.Some?
  }

  lemma UnderReviewHasNoRoute(app: App, u: nat, who: Actor, now: Time, open: bool, ctx: SubmitContext)
    requires app.row.status.UnderReview?
    ensures NoRoute(app, u, who, now, open, ctx)
  {
    hide SubmitCommit, ResubmittedRequests;
  }

  /** Where the assistant's mark goes among the requests as they are. */
  function MarkedAt(read: Task, requests: seq<SupplementRequest>): Option<int> {
    var k := ActiveIndex(read.requests);
    if k.None? then None else Some(|requests| - (|read.requests| - k.value))
  }

  /** The assistant strands a request exactly if one is active that is not the one it had read as active. */
  lemma AssistantStrandsIff(actor: Actor, t: nat, now: Time, first: App, cur: App)
    requires AssistantResubmit(actor, t, now, first, cur).error.None?
    ensures Stranded(AssistantResubmit(actor, t, now, first, cur).app.tasks[t])
            <==> exists i :: 0 <= i < |cur.tasks[t].requests| && cur.tasks[t].requests[i].status.Active?
                             && Some(i) != MarkedAt(first.tasks[t], cur.tasks[t].requests)
  {
    hide ReadyToResubmit, MoveEvidence, EvidenceIds;
    var read, requests := first.tasks[t], cur.tasks[t].requests;
    var after := AssistedRequests(read, requests, actor.id, now);
    if i :| 0 <= i < |requests| && requests[i].status.Active? && Some(i) != MarkedAt(read, requests) {
      assert after[|after| - |requests| + i] == requests[i];
    }
    if k :| 0 <= k < |after| && after[k].status.Active? {
      assert after[k] == requests[k - (|after| - |requests|)];
    }
  }

  // ---------- It does happen ----------

  lemma AssistingFirst(before: App, app: App, now: Time)
    requires before.row.studentId == STUDENT.id && before.row.status.SupplementRequired? && before.row.targetLevel.City?
    requires |before.tasks| == 5 && before.tasks[0].criterion.Ethics? && before.tasks[0].status.SupplementRequired?
    requires ActiveIndex(before.tasks[0].requests).Some? && before.tasks[0].dueDate.None?
    requires before.evidences == [] && app.row == before.row.(updatedAt := app.row.updatedAt)
    requires app.tasks == before.tasks && app.evidences == Imported(before, 0).evidences
    ensures AssistantResubmit(STUDENT, 0, now, app, app).error.None?
  {
    assert app.evidences[0].criterion.Ethics? && app.evidences[0].status.UnderReview?;
    assert ReadyToResubmit(app, 0, now);
  }

  /** Two supplements are asked for, and evidence for the first of them is there. */
  lemma TwiceAskedImportedRun() returns (states: seq<App>, events: seq<Event>)
    ensures Run(states, events) && |events| == 4 && Outstanding(states[4].tasks) == {0, 1}
    ensures AssistantResubmit(STUDENT, 0, 5, states[4], states[4]).error.None?
  {
    states, events := TwiceAskedRun();
    var asked := states[3];
    assert |states| == 4;
    TwoOutstanding(states[1], asked);
    AssistingFirst(asked, Imported(asked, 4), 5);
    assert Imported(asked, 4).tasks == asked.tasks;
    ExtendByImport(states, events, 4);
    hide *;
    states, events := states + [Imported(asked, 4)],
      events + [Event(RqImportEvent(ADMIN, "event", Criterion.Ethics, false), 4, 3, 3)];
  }

  function AssistFirst(): Event { Event(RqAssistantResubmit(STUDENT, 0), 5, 4, 4) }

  lemma LeftBehindRun() returns (states: seq<App>, events: seq<Event>)
    ensures Run(states, events) && |events| == 5 && events[4] == AssistFirst()
    ensures Outstanding(states[4].tasks) == {0, 1}
    ensures states[5].row.status.UnderReview? && 1 in Outstanding(states[5].tasks)
  {
    states, events := TwiceAskedImportedRun();
    var before := states[4];
    var next := AssistantResubmit(STUDENT, 0, 5, before, before).app;
    assert |states| == 5 && Perform(RqAssistantResubmit(STUDENT, 0), 5, before, before, before).app == next;
    OthersAreLeftBehind(STUDENT, 0, 1, 5, before, before);
    hide Run, Perform, AssistantResubmit, Outstanding, NoRoute;
    ExtendByStep(states, events, AssistFirst(), next);
    states, events := states + [next], events + [AssistFirst()];
  }

  /** The assistant resubmits one of two tasks, and the other is left behind. */
  lemma AssistantLeavesATaskBehind()
    ensures exists states: seq<App>, events: seq<Event> ::
              && Run(states, events) && |events| == 5 && events[4] == AssistFirst()
              && Outstanding(states[4].tasks) == {0, 1}
              && states[5].row.status.UnderReview? && 1 in Outstanding(states[5].tasks)
  {
    var states, events := LeftBehindRun();
    hide *;
    assert Run(states, events);
  }

  lemma TwoOutstanding(submitted: App, asked: App)
    requires submitted.tasks == FreshTasks(CORE_CRITERIA, [])
    requires asked == Asked(1, 3, Asked(0, 2, submitted))
    ensures Outstanding(asked.tasks) == {0, 1} && asked.row.status.SupplementRequired?
    ensures |asked.tasks| == 5 && asked.tasks[0].criterion.Ethics? && asked.tasks[0].status.SupplementRequired?
    ensures ActiveIndex(asked.tasks[0].requests).Some? && asked.tasks[0].dueDate.None?
  {
  }
}
