/** The repair of missing review tasks over the runs of the application aggregate. It creates tasks under the
    row lock but leaves the version alone, so a submission prepared before it does not notice. */
module RepairRuns {
  import opened ReviewTypes
  import opened Aggregate
  import opened Sequences
  import opened AggregateRuns

  // ---------- What a repair creates ----------

  lemma {:induction false} MissingAreNew(criteria: seq<Criterion>, tasks: seq<Task>)
    requires Distinct(criteria)
    ensures var missing := MissingCriteria(criteria, tasks);
            && Distinct(missing)
            && forall c :: c in missing <==> c in criteria && c !in Criteria(tasks)
  {
    if criteria != [] {
      MissingAreNew(criteria[1..], tasks);
      assert criteria[0] !in criteria[1..];
      assert forall c :: c in criteria <==> c == criteria[0] || c in criteria[1..];
      HasTaskIff(tasks, criteria[0]);
    }
  }

  lemma HasTaskIff(tasks: seq<Task>, c: Criterion)
    ensures (exists i :: 0 <= i < |tasks| && tasks[i].criterion == c) <==> c in Criteria(tasks)
  {
    if i :| 0 <= i < |tasks| && tasks[i].criterion == c {
      assert Criteria(tasks)[i] == c;
    }
  }

  lemma EnsuredAreDistinct(first: App)
    ensures Distinct(EnsuredCriteria(first)) && forall c :: c in CORE_CRITERIA ==> c in EnsuredCriteria(first)
    ensures forall c :: c in EnsuredCriteria(first) && c !in CORE_CRITERIA <==>
              !IndividualCity(first.row) && c in {Criterion.Priority, Criterion.Collective}
                && HasEvidence(first.evidences, c)
  {
    hide HasEvidence;
    var e := EnsuredCriteria(first);
    assert forall k :: 0 <= k < 5 ==> e[k] == CORE_CRITERIA[k];
    assert forall c :: c in CORE_CRITERIA ==> c in e[..5];
    if !IndividualCity(first.row) && HasEvidence(first.evidences, Criterion.Priority) {
      assert e[5] == Criterion.Priority;
    }
    if !IndividualCity(first.row) && HasEvidence(first.evidences, Criterion.Collective) {
      assert e[|e| - 1] == Criterion.Collective;
    }
  }

  /** A committed repair appends one task for each criterion it ensures that has none. */
  lemma RepairAppends(now: Time, first: App, cur: App)
    ensures var outcome, missing := EnsureTasks(now, first, cur), MissingCriteria(EnsuredCriteria(first), cur.tasks);
            Criteria(outcome.app.tasks) == Criteria(cur.tasks) + if outcome.error.None? then missing else []
  {
    hide MissingCriteria, EnsuredCriteria;
  }

  // ---------- Overlaps ----------

  /** A repair commits between two moments of the run. */
  ghost predicate RepairBetween(states: seq<App>, events: seq<Event>, from: nat, to: nat)
    requires Run(states, events) && from <= to <= |events|
  {
    !NoRepair(states, events, from, to)
  }

  /** A first submission that commits although it read no tasks and a repair has committed since. */
  ghost predicate OverlapAt(states: seq<App>, events: seq<Event>, i: nat)
    requires Run(states, events) && i < |events|
  {
    CreatesAt(states, events, i) && events[i].first <= i && RepairBetween(states, events, events[i].first, i)
  }

  /** A committed submission that read no tasks: the one that creates them. */
  ghost predicate CreatesAt(states: seq<App>, events: seq<Event>, i: nat)
    requires Run(states, events) && i < |events|
  {
    events[i].rq.RqSubmit? && OutcomeAt(states, events, i).error.None? && FirstRead(states, events, i).tasks == []
  }

  /** The criteria a step appends. */
  ghost function Appended(states: seq<App>, events: seq<Event>, i: nat): seq<Criterion>
    requires Run(states, events) && i < |events|
  {
    if CreatesAt(states, events, i) then CreatedCriteria(events[i].rq, FirstRead(states, events, i))
    else if RepairedAt(states, events, i) then
      MissingCriteria(EnsuredCriteria(FirstRead(states, events, i)), states[i].tasks)
    else []
  }

  lemma StepAppends(states: seq<App>, events: seq<Event>, i: nat)
    requires Run(states, events) && i < |events|
    ensures Criteria(states[i + 1].tasks) == Criteria(states[i].tasks) + Appended(states, events, i)
  {
    hide MissingCriteria, EnsuredCriteria, CreatedCriteria, EnsureTasks, Submit;
    assert Follows(states, events, i);
    if RepairedAt(states, events, i) {
      RepairAppends(events[i].now, FirstRead(states, events, i), states[i]);
    } else {
      CriteriaAt(states, events, i);
    }
  }

  lemma {:induction false} TasksOnlyGrow(states: seq<App>, events: seq<Event>, i: nat, j: nat)
    requires Run(states, events) && i <= j < |states|
    ensures Criteria(states[i].tasks) <= Criteria(states[j].tasks)
  {
    hide Appended, Perform;
    if i < j {
      TasksOnlyGrow(states, events, i, j - 1);
      StepAppends(states, events, j - 1);
    }
  }

  predicate HasCore(criteria: seq<Criterion>) { forall c :: c in CORE_CRITERIA ==> c in criteria }

  lemma CreatedHasCore(rq: Request, first: App)
    requires rq.RqSubmit?
    ensures HasCore(CreatedCriteria(rq, first)) && Distinct(CreatedCriteria(rq, first))
    ensures forall c :: c in CreatedCriteria(rq, first) && c !in CORE_CRITERIA <==>
              c.Priority? && !IndividualCity(first.row)
                && (rq.ctx.priorityFound || HasEvidence(first.evidences, Criterion.Priority))
  {
    hide HasEvidence;
    var created := CreatedCriteria(rq, first);
    assert created[..5] == CORE_CRITERIA && forall k :: 0 <= k < 5 ==> created[k] == CORE_CRITERIA[k];
    assert forall c :: c in CORE_CRITERIA ==> c in created[..5];
    assert |created| > 5 ==> created[5] in created;
  }

  lemma RepairLeavesCore(states: seq<App>, events: seq<Event>, i: nat)
    requires Run(states, events) && i < |events| && RepairedAt(states, events, i)
    ensures HasCore(Criteria(states[i + 1].tasks))
  {
    hide MissingCriteria, EnsuredCriteria, Perform;
    StepAppends(states, events, i);
    var first := FirstRead(states, events, i);
    EnsuredAreDistinct(first);
    MissingAreNew(EnsuredCriteria(first), states[i].tasks);
  }

  /** A submission that creates tasks commits on tasks of its criteria exactly if it overlapped a repair; else
      there are none at all. */
  lemma CreationMeetsTasksIff(states: seq<App>, events: seq<Event>, i: nat)
    requires Run(states, events) && i < |events| && CreatesAt(states, events, i)
    ensures var created := CreatedCriteria(events[i].rq, FirstRead(states, events, i));
            if OverlapAt(states, events, i) then exists c :: c in Criteria(states[i].tasks) && c in created
            else states[i].tasks == []
  {
    assert Follows(states, events, i);
    var e := events[i];
    hide Perform, CreatedCriteria;
    CommittedSubmission(e.rq, e.now, states[e.first], states[e.second], states[i]);
    if OverlapAt(states, events, i) {
      var k :| e.first <= k < i && RepairedAt(states, events, k);
      RepairLeavesCore(states, events, k);
      TasksOnlyGrow(states, events, k + 1, i);
      CreatedHasCore(e.rq, states[e.first]);
      assert CORE_CRITERIA[0] in CORE_CRITERIA;
    } else {
      SameVersionSameTasks(states, events, e.first, i);
      assert |Criteria(states[i].tasks)| == 0;
    }
  }

  lemma StepKeepsDistinctIff(states: seq<App>, events: seq<Event>, i: nat)
    requires Run(states, events) && i < |events| && Distinct(Criteria(states[i].tasks))
    ensures Distinct(Criteria(states[i + 1].tasks)) <==> !OverlapAt(states, events, i)
  {
    hide Perform, MissingCriteria, EnsuredCriteria, CreatedCriteria, Distinct, OverlapAt;
    StepAppends(states, events, i);
    var cur, first := states[i], FirstRead(states, events, i);
    if CreatesAt(states, events, i) {
      CreationMeetsTasksIff(states, events, i);
      CreatedHasCore(events[i].rq, first);
      DistinctAppend(Criteria(cur.tasks), CreatedCriteria(events[i].rq, first));
    } else if RepairedAt(states, events, i) {
      EnsuredAreDistinct(first);
      MissingAreNew(EnsuredCriteria(first), cur.tasks);
      DistinctAppend(Criteria(cur.tasks), MissingCriteria(EnsuredCriteria(first), cur.tasks));
      OverlapsCreate(states, events, i);
    } else {
      assert Criteria(cur.tasks) + [] == Criteria(cur.tasks);
      OverlapsCreate(states, events, i);
    }
  }

  lemma OverlapsCreate(states: seq<App>, events: seq<Event>, i: nat)
    requires Run(states, events) && i < |events|
    ensures OverlapAt(states, events, i) ==> CreatesAt(states, events, i)
  {
  }

  /** With repairs taking part, no criterion ever has two tasks exactly if no first submission commits with a
      repair between its read of the tasks and its commit. */
  lemma {:induction false} TasksAreDistinctIff(states: seq<App>, events: seq<Event>, j: nat)
    requires Run(states, events) && j < |states|
    ensures Distinct(Criteria(states[j].tasks)) <==> forall i :: 0 <= i < j ==> !OverlapAt(states, events, i)
  {
    hide OverlapAt, Distinct, Perform;
    if j == 0 {
      NoTasksAreDistinct();
    } else {
      TasksAreDistinctIff(states, events, j - 1);
      TasksOnlyGrow(states, events, j - 1, j);
      if Distinct(Criteria(states[j - 1].tasks)) {
        StepKeepsDistinctIff(states, events, j - 1);
      } else {
        StaysRepeated(Criteria(states[j - 1].tasks), Criteria(states[j].tasks));
      }
    }
  }

  lemma NoTasksAreDistinct()
    ensures Distinct(Criteria([]))
  {
  }

  lemma StaysRepeated(a: seq<Criterion>, b: seq<Criterion>)
    requires a <= b && !Distinct(a)
    ensures !Distinct(b)
  {
    var i, j :| 0 <= i < j < |a| && a[i] == a[j];
    assert b[i] == b[j];
  }

  // ---------- Tasks off the core criteria ----------

  predicate OffCore(criteria: seq<Criterion>) { exists c :: c in criteria && c !in CORE_CRITERIA }

  /** A submission or repair that creates a priority or collective task: it had read the application as other than
      individual City, with evidence or a precheck result for it and, in a repair, no such task yet. */
  ghost predicate WidensAt(states: seq<App>, events: seq<Event>, i: nat)
    requires Run(states, events) && i < |events|
  {
    var rq, first := events[i].rq, FirstRead(states, events, i);
    && !IndividualCity(first.row)
    && if CreatesAt(states, events, i) then rq.ctx.priorityFound || HasEvidence(first.evidences, Criterion.Priority)
       else RepairedAt(states, events, i)
            && exists c :: c in {Criterion.Priority, Criterion.Collective} && HasEvidence(first.evidences, c)
                           && c !in Criteria(states[i].tasks)
  }

  lemma OffCoreSplits(a: seq<Criterion>, b: seq<Criterion>)
    ensures OffCore(a + b) <==> OffCore(a) || OffCore(b)
  {
    assert forall c :: c in a + b <==> c in a || c in b;
  }

  lemma StepWidensIff(states: seq<App>, events: seq<Event>, i: nat)
    requires Run(states, events) && i < |events|
    ensures OffCore(Criteria(states[i + 1].tasks))
            <==> OffCore(Criteria(states[i].tasks)) || WidensAt(states, events, i)
  {
    hide Perform, MissingCriteria, EnsuredCriteria, CreatedCriteria, HasEvidence, IndividualCity, Criteria;
    StepAppends(states, events, i);
    var first := FirstRead(states, events, i);
    OffCoreSplits(Criteria(states[i].tasks), Appended(states, events, i));
    if CreatesAt(states, events, i) {
      CreatedHasCore(events[i].rq, first);
      assert Criterion.Priority !in CORE_CRITERIA;
      assert OffCore(Appended(states, events, i)) <==> Criterion.Priority in Appended(states, events, i);
    } else if RepairedAt(states, events, i) {
      EnsuredAreDistinct(first);
      MissingAreNew(EnsuredCriteria(first), states[i].tasks);
      assert Criterion.Priority !in CORE_CRITERIA && Criterion.Collective !in CORE_CRITERIA;
      assert forall c :: c in Appended(states, events, i) && c !in CORE_CRITERIA <==>
        c in EnsuredCriteria(first) && c !in CORE_CRITERIA && c !in Criteria(states[i].tasks);
    }
  }

  lemma {:induction false} OffCoreIff(states: seq<App>, events: seq<Event>, j: nat)
    requires Run(states, events) && j < |states|
    ensures OffCore(Criteria(states[j].tasks)) <==> exists i :: 0 <= i < j && WidensAt(states, events, i)
  {
    hide Perform, WidensAt, OffCore;
    if j == 0 {
      NothingOffCore();
    } else {
      OffCoreIff(states, events, j - 1);
      StepWidensIff(states, events, j - 1);
    }
  }

  lemma NothingOffCore()
    ensures !OffCore(Criteria([]))
  {
  }

  // ---------- All core criteria ----------

  /** Tasks are only ever created for all core criteria. */
  lemma {:induction false} TasksHaveCore(states: seq<App>, events: seq<Event>, j: nat)
    requires Run(states, events) && j < |states|
    ensures states[j].tasks == [] || HasCore(Criteria(states[j].tasks))
  {
    hide Perform, MissingCriteria, EnsuredCriteria, CreatedCriteria;
    if j > 0 {
      TasksHaveCore(states, events, j - 1);
      StepAppends(states, events, j - 1);
      if CreatesAt(states, events, j - 1) {
        CreatedHasCore(events[j - 1].rq, FirstRead(states, events, j - 1));
      } else if RepairedAt(states, events, j - 1) {
        RepairLeavesCore(states, events, j - 1);
      } else {
        assert |Criteria(states[j].tasks)| == |Criteria(states[j - 1].tasks)|;
      }
    }
  }

  /** A submitted application has review tasks, whatever repairs there were. */
  lemma {:induction false} SubmittedHasTasks(states: seq<App>, events: seq<Event>, j: nat)
    requires Run(states, events) && j < |states| && states[j].row.submittedAt.Some?
    ensures states[j].tasks != []
    decreases j
  {
    hide Perform, CreatedCriteria;
    if j > 0 {
      assert Follows(states, events, j - 1);
      var e := events[j - 1];
      StepKeepsSubmittedAt(e.rq, e.now, states[e.first], states[e.second], states[j - 1]);
      TasksOnlyGrow(states, events, j - 1, j);
      assert |Criteria(states[j].tasks)| == |states[j].tasks|
             && |Criteria(states[j - 1].tasks)| == |states[j - 1].tasks|;
      if states[j - 1].row.submittedAt.Some? {
        SubmittedHasTasks(states, events, j - 1);
      } else if CreatesAt(states, events, j - 1) {
        StepAppends(states, events, j - 1);
        CreatedHasCore(e.rq, states[e.first]);
        assert CORE_CRITERIA[0] in CORE_CRITERIA;
      } else {
        TasksOnlyGrow(states, events, e.first, j - 1);
        assert |Criteria(states[e.first].tasks)| == |states[e.first].tasks|;
      }
    }
  }

  // ---------- The race ----------

  /** The race does happen: the repair action `ensureReviewTasks` creates tasks without touching the
      application row, so a first submission prepared before it does not notice and creates the
      five tasks again. */
  lemma EnsureRaceDuplicatesTasks()
    ensures exists states: seq<App>, events: seq<Event> ::
              Run(states, events) && |events| == 3
              && |states[2].tasks| == 5 && |states[3].tasks| == 10
              && !Distinct(Criteria(states[3].tasks))
  {
    var states, events := RacingRun();
    var tasks := states[3].tasks;
    assert Criteria(tasks)[0] == Criteria(tasks)[5];
  }

  lemma RacingRun() returns (states: seq<App>, events: seq<Event>)
    ensures Run(states, events) && |events| == 3
    ensures states[2].tasks == FreshTasks(CORE_CRITERIA, [])
    ensures states[3].tasks == FreshTasks(CORE_CRITERIA, []) + FreshTasks(CORE_CRITERIA, [])
  {
    states, events := EnsuredRun();
    var reopened, ensured := states[1], states[2];
    RacingSubmission(reopened, ensured);
    ExtendRun(states, events, Event(RqSubmit(STUDENT, OPEN_CONTEXT), 3, 1, 1));
    states := states + [Submit(STUDENT, OPEN_CONTEXT, 3, reopened, reopened, ensured).app];
    events := events + [Event(RqSubmit(STUDENT, OPEN_CONTEXT), 3, 1, 1)];
  }

  lemma ReopenedRun() returns (states: seq<App>, events: seq<Event>)
    ensures Run(states, events) && |events| == 1 && ReopenedDraft(states[1])
  {
    states, events := [Start(STUDENT.id, 0)], [];
    assert Run(states, events);
    ExtendRun(states, events, Event(RqReopenSupplement(ADMIN), 1, 0, 0));
    var reopened := ReopenSupplement(ADMIN, 1, states[0], states[0]).app;
    states, events := states + [reopened], events + [Event(RqReopenSupplement(ADMIN), 1, 0, 0)];
  }

  lemma EnsuredRun() returns (states: seq<App>, events: seq<Event>)
    ensures Run(states, events) && |events| == 2
    ensures ReopenedDraft(states[1]) && states[2] == states[1].(tasks := FreshTasks(CORE_CRITERIA, []))
  {
    states, events := ReopenedRun();
    var reopened := states[1];
    EnsureCreatesFive(reopened);
    hide EnsureTasks, FreshTasks;
    ExtendRun(states, events, Event(RqEnsureTasks, 2, 1, 1));
    states := states + [reopened.(tasks := FreshTasks(CORE_CRITERIA, []))];
    events := events + [Event(RqEnsureTasks, 2, 1, 1)];
  }

  /** The application as reopened for a supplement before its first submission. */
  predicate ReopenedDraft(app: App) {
    var draft := Start(STUDENT.id, 0);
    app == draft.(row := draft.row.(status := AppStatus.SupplementRequired, updatedAt := 1))
  }

  lemma EnsureCreatesFive(read: App)
    requires ReopenedDraft(read)
    ensures EnsureTasks(2, read, read) == Commit(read.(tasks := FreshTasks(CORE_CRITERIA, [])))
  {
    MissingAll(CORE_CRITERIA);
    assert read.tasks + FreshTasks(CORE_CRITERIA, []) == FreshTasks(CORE_CRITERIA, []);
  }

  lemma RacingSubmission(read: App, cur: App)
    requires ReopenedDraft(read) && cur == read.(tasks := FreshTasks(CORE_CRITERIA, []))
    ensures Submit(STUDENT, OPEN_CONTEXT, 3, read, read, cur).error.None?
    ensures Submit(STUDENT, OPEN_CONTEXT, 3, read, read, cur).app.tasks
            == FreshTasks(CORE_CRITERIA, []) + FreshTasks(CORE_CRITERIA, [])
  {
    assert SubmitCriteria([], false, false) == CORE_CRITERIA;
  }

  lemma MissingAll(criteria: seq<Criterion>)
    ensures MissingCriteria(criteria, []) == criteria
  {
    if criteria != [] {
      MissingAll(criteria[1..]);
    }
  }
}
