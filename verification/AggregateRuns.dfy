/** Safety of the application aggregate over every interleaving of requests.

    A run is the sequence of committed states of one application. The event leading from state i
    to state i + 1 may have done its unlocked reads at any earlier states, so a run covers every
    interleaving of the read and commit phases of any number of requests. */
module AggregateRuns {
  import opened ReviewTypes
  import opened Aggregate
  import opened Sequences

  datatype Event = Event(rq: Request, now: Time, first: nat, second: nat)

  ghost predicate Run(states: seq<App>, events: seq<Event>) {
    && |states| == |events| + 1
    && (exists student, at :: states[0] == Start(student, at))
    && forall i :: 0 <= i < |events| ==> Follows(states, events, i)
  }

  ghost predicate Follows(states: seq<App>, events: seq<Event>, i: nat)
    requires i < |events| && |states| == |events| + 1
  {
    var e := events[i];
    && e.first <= e.second <= i
    && states[i + 1] == Perform(e.rq, e.now, states[e.first], states[e.second], states[i]).app
  }

  /** What the request of event i read first. */
  ghost function FirstRead(states: seq<App>, events: seq<Event>, i: nat): App
    requires Run(states, events) && i < |events|
  {
    assert Follows(states, events, i);
    states[events[i].first]
  }

  ghost function OutcomeAt(states: seq<App>, events: seq<Event>, i: nat): Outcome
    requires Run(states, events) && i < |events|
  {
    assert Follows(states, events, i);
    Perform(events[i].rq, events[i].now, states[events[i].first], states[events[i].second], states[i])
  }

  /** Runs are built one committed request at a time. */
  lemma ExtendRun(states: seq<App>, events: seq<Event>, e: Event)
    requires Run(states, events) && e.first <= e.second < |states|
    ensures var cur := states[|states| - 1];
            Run(states + [Perform(e.rq, e.now, states[e.first], states[e.second], cur).app], events + [e])
  {
    var states' := states + [Perform(e.rq, e.now, states[e.first], states[e.second], states[|states| - 1]).app];
    var events' := events + [e];
    forall i | 0 <= i < |events'| ensures Follows(states', events', i) {
      if i < |events| {
        assert Follows(states, events, i);
      }
    }
  }

  lemma ExtendByStep(states: seq<App>, events: seq<Event>, e: Event, next: App)
    requires Run(states, events) && e.first <= e.second < |states|
    requires Perform(e.rq, e.now, states[e.first], states[e.second], states[|states| - 1]).app == next
    ensures Run(states + [next], events + [e])
  {
    hide Perform;
    ExtendRun(states, events, e);
  }

  // ---------- Draft versions and snapshots ----------

  /** A step leaves version and snapshots alone, or adds the one snapshot of the next version; the
      latter only when the version it read is still current. */
  predicate VersionStep(first: App, cur: App, next: App) {
    || (next.row.version == cur.row.version && next.snapshots == cur.snapshots)
    || (&& first.row.version == cur.row.version
        && next.row.version == cur.row.version + 1
        && |next.snapshots| == |cur.snapshots| + 1
        && next.snapshots[..|cur.snapshots|] == cur.snapshots
        && next.snapshots[|cur.snapshots|].version == next.row.version)
  }

  /** The requests that write the draft: its level and version, its first submission, its verdict. */
  predicate WritesDraft(rq: Request) { rq.RqSubmit? || rq.RqTargetLevel? || rq.RqAutosave? || rq.RqVerify? }

  /** All of that is left alone, and the owner and type with it; the history of superseded decisions only ever
      gets more. */
  predicate KeepsDraft(cur: App, next: App) {
    && next.snapshots == cur.snapshots && next.verification == cur.verification
    && next.row == cur.row.(status := next.row.status, final := next.row.final, cancelled := next.row.cancelled,
                            archived := next.row.archived, updatedAt := next.row.updatedAt)
    && cur.finalHistory <= next.finalHistory
  }

  predicate IsLifecycle(rq: Request) {
    rq.RqCancel? || rq.RqReopenCancelled? || rq.RqArchive? || rq.RqUnarchive? || rq.RqReopenFinal? || rq.RqFinalize?
    || rq.RqReopenSupplement? || rq.RqAggregate? || rq.RqPrecheck?
  }

  lemma LifecycleKeepsDraft(rq: Request, now: Time, first: App, second: App, cur: App)
    requires IsLifecycle(rq)
    ensures KeepsDraft(cur, Perform(rq, now, first, second, cur).app)
  {
    hide LifecycleGate, HasSupplementTask, HasOpenRequest, SuggestedStatus, NextPrecheckStatus;
  }

  lemma ReviewKeepsDraft(rq: Request, now: Time, first: App, second: App, cur: App)
    requires !WritesDraft(rq) && !IsLifecycle(rq)
    ensures KeepsDraft(cur, Perform(rq, now, first, second, cur).app)
  {
    hide ReadyToResubmit, FreshTasks, ResubmittedTask, ResubmittedRequests, DecidedTask, MissingCriteria,
      EnsuredCriteria, MoveEvidence, HasSupplementTask, ResolvedTask, ClosesAsFailed, ProcessedEvidences, AssistedTask;
  }

  lemma OtherStepsKeepDraft(rq: Request, now: Time, first: App, second: App, cur: App)
    requires !WritesDraft(rq)
    ensures KeepsDraft(cur, Perform(rq, now, first, second, cur).app)
  {
    hide Perform, KeepsDraft;
    if IsLifecycle(rq) {
      LifecycleKeepsDraft(rq, now, first, second, cur);
    } else {
      ReviewKeepsDraft(rq, now, first, second, cur);
    }
  }

  lemma StepMovesVersion(rq: Request, now: Time, first: App, second: App, cur: App)
    ensures VersionStep(first, cur, Perform(rq, now, first, second, cur).app)
  {
    if !WritesDraft(rq) {
      OtherStepsKeepDraft(rq, now, first, second, cur);
      hide Perform;
    } else {
      hide DraftGate, FreshTasks, GenericTasks, SubmitCriteria, MoveEvidence, SupplementCriteria, HasSupplementTask;
    }
  }

  /** The snapshot versions are exactly 1 to the current version, one snapshot each. */
  predicate Numbered(app: App) {
    |app.snapshots| == app.row.version && forall k :: 0 <= k < |app.snapshots| ==> app.snapshots[k].version == k + 1
  }

  lemma {:induction false} SnapshotsNumberTheVersions(states: seq<App>, events: seq<Event>, i: nat)
    requires Run(states, events) && i < |states|
    ensures Numbered(states[i])
  {
    hide Perform;
    if i > 0 {
      SnapshotsNumberTheVersions(states, events, i - 1);
      var e := events[i - 1];
      assert Follows(states, events, i - 1);
      StepMovesVersion(e.rq, e.now, states[e.first], states[e.second], states[i - 1]);
      var before, after := states[i - 1], states[i];
      forall k | 0 <= k < |after.snapshots| ensures after.snapshots[k].version == k + 1 {
        if k < |before.snapshots| && after.snapshots != before.snapshots {
          assert after.snapshots[..|before.snapshots|][k] == before.snapshots[k];
        }
      }
    }
  }

  lemma {:induction false} VersionsNeverDecrease(states: seq<App>, events: seq<Event>, i: nat, j: nat)
    requires Run(states, events) && i <= j < |states|
    ensures states[i].row.version <= states[j].row.version
  {
    hide Perform;
    if i < j {
      VersionsNeverDecrease(states, events, i, j - 1);
      var e := events[j - 1];
      assert Follows(states, events, j - 1);
      StepMovesVersion(e.rq, e.now, states[e.first], states[e.second], states[j - 1]);
    }
  }

  predicate WritesVersion(states: seq<App>, i: nat)
    requires i + 1 < |states|
  {
    states[i + 1].row.version != states[i].row.version
  }

  /** At most one request prepared against a given version ever commits: of two requests that wrote
      a version, the later one had read a strictly later version. */
  lemma OneCommitPerVersion(states: seq<App>, events: seq<Event>, i: nat, j: nat)
    requires Run(states, events) && i < j < |events|
    requires WritesVersion(states, i) && WritesVersion(states, j)
    ensures FirstRead(states, events, i).row.version < FirstRead(states, events, j).row.version
  {
    hide Perform;
    var e, f := events[i], events[j];
    assert Follows(states, events, i) && Follows(states, events, j);
    StepMovesVersion(e.rq, e.now, states[e.first], states[e.second], states[i]);
    StepMovesVersion(f.rq, f.now, states[f.first], states[f.second], states[j]);
    VersionsNeverDecrease(states, events, i + 1, j);
  }

  // ---------- The first submission ----------

  lemma StepKeepsSubmittedAt(rq: Request, now: Time, first: App, second: App, cur: App)
    ensures var next := Perform(rq, now, first, second, cur).app;
            && (cur.row.submittedAt.Some? ==> next.row.submittedAt == cur.row.submittedAt)
            && (cur.row.submittedAt.None? && next.row.submittedAt.Some? ==>
                  rq.RqSubmit? && Perform(rq, now, first, second, cur).error.None?)
  {
    if !WritesDraft(rq) {
      OtherStepsKeepDraft(rq, now, first, second, cur);
      hide Perform;
    } else {
      hide DraftGate, FreshTasks, GenericTasks, SubmitCriteria, MoveEvidence, SupplementCriteria, HasSupplementTask;
    }
  }

  /** The time of the first submission is never lost or moved. */
  lemma {:induction false} FirstSubmissionIsForever(states: seq<App>, events: seq<Event>, i: nat, j: nat)
    requires Run(states, events) && i <= j < |states|
    requires states[i].row.submittedAt.Some?
    ensures states[j].row.submittedAt == states[i].row.submittedAt
  {
    hide Perform;
    if i < j {
      FirstSubmissionIsForever(states, events, i, j - 1);
      var e := events[j - 1];
      assert Follows(states, events, j - 1);
      StepKeepsSubmittedAt(e.rq, e.now, states[e.first], states[e.second], states[j - 1]);
    }
  }

  // ---------- Review tasks ----------

  function Criteria(tasks: seq<Task>): (criteria: seq<Criterion>)
    ensures |criteria| == |tasks|
    ensures forall i :: 0 <= i < |tasks| ==> criteria[i] == tasks[i].criterion
  {
    seq(|tasks|, i requires 0 <= i < |tasks| => tasks[i].criterion)
  }

  function CreatedCriteria(rq: Request, first: App): seq<Criterion>
    requires rq.RqSubmit?
  {
    SubmitCriteria(first.evidences, rq.ctx.priorityFound, !IndividualCity(first.row))
  }

  lemma SubmitKeepsCriteria(actor: Actor, ctx: SubmitContext, now: Time, first: App, second: App, cur: App)
    ensures var outcome := Submit(actor, ctx, now, first, second, cur);
            if outcome.error.None? && first.tasks == []
            then Criteria(outcome.app.tasks) == Criteria(cur.tasks) + CreatedCriteria(RqSubmit(actor, ctx), first)
            else Criteria(outcome.app.tasks) == Criteria(cur.tasks)
  {
    hide SubmitCriteria, SubmitGate, StorePrecheck, SameSubmissionState;
  }

  /** What a step other than a committed repair does to the list of tasks: nothing, except that a
      committed submission that read no tasks appends its criteria. */
  lemma StepKeepsCriteria(rq: Request, now: Time, first: App, second: App, cur: App)
    requires rq.RqEnsureTasks? ==> Perform(rq, now, first, second, cur).error.Some?
    ensures var outcome := Perform(rq, now, first, second, cur);
            if rq.RqSubmit? && outcome.error.None? && first.tasks == []
            then Criteria(outcome.app.tasks) == Criteria(cur.tasks) + CreatedCriteria(rq, first)
            else Criteria(outcome.app.tasks) == Criteria(cur.tasks)
  {
    if rq.RqSubmit? {
      hide Submit, CreatedCriteria;
      SubmitKeepsCriteria(rq.actor, rq.ctx, now, first, second, cur);
    } else {
      OtherStepsKeepCriteria(rq, now, first, second, cur);
      hide Perform;
    }
  }

  lemma OtherStepsKeepCriteria(rq: Request, now: Time, first: App, second: App, cur: App)
    requires !rq.RqSubmit? && (rq.RqEnsureTasks? ==> Perform(rq, now, first, second, cur).error.Some?)
    ensures var next := Perform(rq, now, first, second, cur).app;
            |next.tasks| == |cur.tasks| && forall k :: 0 <= k < |cur.tasks| ==>
              next.tasks[k].criterion == cur.tasks[k].criterion
  {
    hide Submit, DraftGate, LifecycleGate, ReadyToResubmit, ResubmittedRequests, MissingCriteria, EnsuredCriteria,
      SyncOutcome, ResolvedRow, MoveEvidence, HasSupplementTask, HasOpenRequest, SuggestedStatus, ProcessedEvidences,
      AssistedRequests, EvidenceIds;
  }

  /** A committed submission saw the current version and submission time, leaves the application
      submitted and under review, and keeps the type and level it read. */
  lemma CommittedSubmission(rq: Request, now: Time, first: App, second: App, cur: App)
    requires rq.RqSubmit? && Perform(rq, now, first, second, cur).error.None?
    ensures var next := Perform(rq, now, first, second, cur).app;
            && first.row.version == cur.row.version && next.row.version == cur.row.version + 1
            && first.row.submittedAt == cur.row.submittedAt && next.row.submittedAt.Some?
            && next.row.status.UnderReview?
            && next.row.targetLevel == first.row.targetLevel
            && (IndividualCity(first.row) ==> IndividualCity(next.row))
  {
  }

  /** Event i is a committed repair of missing review tasks. */
  ghost predicate RepairedAt(states: seq<App>, events: seq<Event>, i: nat)
    requires Run(states, events) && i < |events|
  {
    events[i].rq.RqEnsureTasks? && OutcomeAt(states, events, i).error.None?
  }

  ghost predicate NoRepair(states: seq<App>, events: seq<Event>, from: nat, to: nat)
    requires Run(states, events) && from <= to <= |events|
  {
    forall k :: from <= k < to ==> !RepairedAt(states, events, k)
  }

  /** What the step of event i does to the criteria, if it is not a repair. */
  lemma CriteriaAt(states: seq<App>, events: seq<Event>, i: nat)
    requires Run(states, events) && i < |events| && !RepairedAt(states, events, i)
    ensures var e, first := events[i], FirstRead(states, events, i);
            if e.rq.RqSubmit? && OutcomeAt(states, events, i).error.None? && first.tasks == []
            then Criteria(states[i + 1].tasks) == Criteria(states[i].tasks) + CreatedCriteria(e.rq, first)
            else Criteria(states[i + 1].tasks) == Criteria(states[i].tasks)
  {
    hide Perform, CreatedCriteria;
    assert Follows(states, events, i);
    var e := events[i];
    StepKeepsCriteria(e.rq, e.now, states[e.first], states[e.second], states[i]);
  }

  /** Between two states with the same version no review task appears but by a repair. */
  lemma {:induction false} SameVersionSameTasks(states: seq<App>, events: seq<Event>, i: nat, j: nat)
    requires Run(states, events) && i <= j < |states|
    requires NoRepair(states, events, i, j)
    requires states[i].row.version == states[j].row.version
    ensures Criteria(states[i].tasks) == Criteria(states[j].tasks)
  {
    if i < j {
      VersionsNeverDecrease(states, events, i, j - 1);
      VersionsNeverDecrease(states, events, j - 1, j);
      SameVersionSameTasks(states, events, i, j - 1);
      var e := events[j - 1];
      assert Follows(states, events, j - 1) && !RepairedAt(states, events, j - 1);
      CriteriaAt(states, events, j - 1);
      if e.rq.RqSubmit? && OutcomeAt(states, events, j - 1).error.None? {
        CommittedSubmission(e.rq, e.now, states[e.first], states[e.second], states[j - 1]);
      }
    }
  }

  /** Although a submission decides from tasks it read before the lock, it creates tasks only where
      there are still none, if no repair commits in between. */
  lemma SubmissionCreatesOnEmpty(states: seq<App>, events: seq<Event>, i: nat)
    requires Run(states, events) && i < |events| && events[i].first <= i && NoRepair(states, events, events[i].first, i)
    requires events[i].rq.RqSubmit? && OutcomeAt(states, events, i).error.None?
    requires FirstRead(states, events, i).tasks == []
    ensures states[i].tasks == []
  {
    var e := events[i];
    assert Follows(states, events, i);
    CommittedSubmission(e.rq, e.now, states[e.first], states[e.second], states[i]);
    SameVersionSameTasks(states, events, e.first, i);
  }

  /** Review tasks are created at most once: from the first state that has any, the list of
      criteria never changes again. */
  lemma {:induction false} TasksAreCreatedOnce(states: seq<App>, events: seq<Event>, i: nat, j: nat)
    requires Run(states, events) && i <= j < |states| && NoRepair(states, events, 0, j)
    requires states[i].tasks != []
    ensures Criteria(states[j].tasks) == Criteria(states[i].tasks)
  {
    hide Perform, Criteria, CreatedCriteria;
    if i < j {
      TasksAreCreatedOnce(states, events, i, j - 1);
      var e := events[j - 1];
      assert Follows(states, events, j - 1) && !RepairedAt(states, events, j - 1);
      CriteriaAt(states, events, j - 1);
      if e.rq.RqSubmit? && OutcomeAt(states, events, j - 1).error.None? && states[e.first].tasks == [] {
        assert NoRepair(states, events, e.first, j - 1);
        SubmissionCreatesOnEmpty(states, events, j - 1);
        assert false;
      }
    }
  }

  /** An application has review tasks exactly when it has been submitted. */
  lemma {:induction false} SubmittedIffTasks(states: seq<App>, events: seq<Event>, i: nat)
    requires Run(states, events) && i < |states| && NoRepair(states, events, 0, i)
    ensures states[i].row.submittedAt.Some? <==> states[i].tasks != []
  {
    hide Perform;
    if i > 0 {
      SubmittedIffTasks(states, events, i - 1);
      var e := events[i - 1];
      assert Follows(states, events, i - 1) && !RepairedAt(states, events, i - 1);
      var first, second, cur := states[e.first], states[e.second], states[i - 1];
      CriteriaAt(states, events, i - 1);
      StepKeepsSubmittedAt(e.rq, e.now, first, second, cur);
      assert |Criteria(states[i].tasks)| == |states[i].tasks| && |Criteria(cur.tasks)| == |cur.tasks|;
      if e.rq.RqSubmit? && OutcomeAt(states, events, i - 1).error.None? {
        CommittedSubmission(e.rq, e.now, first, second, cur);
        SubmittedIffTasks(states, events, e.first);
      }
    }
  }

  /** An application first submitted as individual City has, from then on, exactly one task for
      each core criterion. */
  lemma CityApplicationsHaveTheCoreTasks(states: seq<App>, events: seq<Event>, i: nat, j: nat)
    requires Run(states, events) && i < j < |states| && NoRepair(states, events, 0, j)
    requires states[i].row.submittedAt.None? && states[i + 1].row.submittedAt.Some?
    requires IndividualCity(states[i + 1].row)
    ensures Criteria(states[j].tasks) == CORE_CRITERIA
  {
    var e := events[i];
    assert Follows(states, events, i);
    var first, second, cur := states[e.first], states[e.second], states[i];
    StepKeepsSubmittedAt(e.rq, e.now, first, second, cur);
    StepKeepsCriteria(e.rq, e.now, first, second, cur);
    CommittedSubmission(e.rq, e.now, first, second, cur);
    SubmittedIffTasks(states, events, e.first);
    SubmittedIffTasks(states, events, i);
    RunKeepsType(states, events, e.first, i + 1);
    assert Criteria(states[i + 1].tasks) == CORE_CRITERIA;
    TasksAreCreatedOnce(states, events, i + 1, j);
  }

  lemma {:induction false} RunKeepsType(states: seq<App>, events: seq<Event>, i: nat, j: nat)
    requires Run(states, events) && i <= j < |states|
    ensures states[i].row.appType == states[j].row.appType && states[i].row.studentId == states[j].row.studentId
  {
    if i < j {
      RunKeepsType(states, events, i, j - 1);
      var e := events[j - 1];
      assert Follows(states, events, j - 1);
      StepKeepsType(e.rq, e.now, states[e.first], states[e.second], states[j - 1]);
    }
  }

  lemma SubmitKeepsType(actor: Actor, ctx: SubmitContext, now: Time, first: App, second: App, cur: App)
    ensures var next := Submit(actor, ctx, now, first, second, cur).app;
            next.row.appType == cur.row.appType && next.row.studentId == cur.row.studentId
            && cur.finalHistory == next.finalHistory
  {
    hide SubmitGate, SameSubmissionState, FreshTasks, GenericTasks, SubmitCriteria, MoveEvidence, SupplementCriteria,
      HasSupplementTask;
  }

  lemma StepKeepsType(rq: Request, now: Time, first: App, second: App, cur: App)
    ensures var next := Perform(rq, now, first, second, cur).app;
            next.row.appType == cur.row.appType && next.row.studentId == cur.row.studentId
            && cur.finalHistory <= next.finalHistory
  {
    if !WritesDraft(rq) {
      OtherStepsKeepDraft(rq, now, first, second, cur);
      hide Perform;
    } else {
      hide Submit, DraftGate;
      if rq.RqSubmit? {
        SubmitKeepsType(rq.actor, rq.ctx, now, first, second, cur);
      }
    }
  }

  /** Exactly when a submission leaves two tasks for one criterion: it read no tasks, and a
      criterion it creates has meanwhile got one. */
  lemma SubmissionDuplicatesIff(rq: Request, now: Time, first: App, second: App, cur: App)
    requires rq.RqSubmit? && Perform(rq, now, first, second, cur).error.None?
    requires Distinct(Criteria(cur.tasks))
    ensures Distinct(Criteria(Perform(rq, now, first, second, cur).app.tasks))
            <==> (first.tasks == [] ==>
                    forall k :: 0 <= k < |cur.tasks| ==> cur.tasks[k].criterion !in CreatedCriteria(rq, first))
  {
    StepKeepsCriteria(rq, now, first, second, cur);
    assert Criteria(cur.tasks) + [] == Criteria(cur.tasks);
    DistinctAppend(Criteria(cur.tasks), if first.tasks == [] then CreatedCriteria(rq, first) else []);
  }

  lemma DistinctAppend<T>(s: seq<T>, t: seq<T>)
    requires Distinct(s) && Distinct(t)
    ensures Distinct(s + t) <==> forall k :: 0 <= k < |s| ==> s[k] !in t
  {
    if k :| 0 <= k < |s| && s[k] in t {
      var m :| 0 <= m < |t| && t[m] == s[k];
      assert (s + t)[k] == (s + t)[|s| + m];
    }
  }

  // ---------- The eligibility verdict ----------

  lemma StepKeepsVerification(rq: Request, now: Time, first: App, second: App, cur: App)
    ensures var next := Perform(rq, now, first, second, cur).app;
            next.verification != cur.verification ==>
              rq.RqVerify? && cur.row.submittedAt.None? && next.row.updatedAt > cur.row.updatedAt
              && next.row == cur.row.(updatedAt := next.row.updatedAt)
  {
    if !WritesDraft(rq) {
      OtherStepsKeepDraft(rq, now, first, second, cur);
      hide Perform;
    } else {
      hide SubmitGate, DraftGate, FreshTasks, GenericTasks, SubmitCriteria, MoveEvidence, SupplementCriteria,
        HasSupplementTask;
    }
  }

  /** The verdict an application was first submitted with stays on record: none is written afterwards. */
  lemma {:induction false} VerdictIsSettledBySubmission(states: seq<App>, events: seq<Event>, i: nat, j: nat)
    requires Run(states, events) && i <= j < |states| && states[i].row.submittedAt.Some?
    ensures states[j].verification == states[i].verification
  {
    if i < j {
      VerdictIsSettledBySubmission(states, events, i, j - 1);
      FirstSubmissionIsForever(states, events, i, j - 1);
      var e := events[j - 1];
      assert Follows(states, events, j - 1);
      StepKeepsVerification(e.rq, e.now, states[e.first], states[e.second], states[j - 1]);
    }
  }

  // ---------- The shortest runs ----------

  const STUDENT := Actor("student", Role.Student)
  const ADMIN := Actor("admin", Role.Admin)
  const OFFICER := Actor("officer", Role.Officer)
  const OPEN_CONTEXT := SubmitContext(false, false, true, true, true, true, None, false)

  /** The shortest run to a submitted application. */
  lemma SubmittedRun() returns (states: seq<App>, events: seq<Event>)
    ensures Run(states, events) && |events| == 1 && states[0] == Start(STUDENT.id, 0)
    ensures states[1] == App(
              Start(STUDENT.id, 0).row.(status := AppStatus.UnderReview, submittedAt := Some(1), version := 2,
                                        updatedAt := 1),
              Start(STUDENT.id, 0).snapshots + [Snapshot(2, STUDENT.id, Submission(1, Level.City))],
              FreshTasks(CORE_CRITERIA, []), [], [], None)
  {
    states, events := [Start(STUDENT.id, 0)], [];
    assert Run(states, events);
    ExtendRun(states, events, Event(RqSubmit(STUDENT, OPEN_CONTEXT), 1, 0, 0));
    var submitted := Submit(STUDENT, OPEN_CONTEXT, 1, states[0], states[0], states[0]).app;
    assert [] + FreshTasks(CORE_CRITERIA, []) == FreshTasks(CORE_CRITERIA, []);
    states, events := states + [submitted], events + [Event(RqSubmit(STUDENT, OPEN_CONTEXT), 1, 0, 0)];
  }

  lemma FinalizedRun() returns (states: seq<App>, events: seq<Event>)
    ensures Run(states, events) && |events| == 2
    ensures states[2] == states[1].(row := FinalizedRow()) && IndividualCity(states[2].row)
    ensures states[1].tasks == FreshTasks(CORE_CRITERIA, []) && states[1].finalHistory == []
  {
    states, events := SubmittedRun();
    var submitted := states[1];
    var rq := RqFinalize(ADMIN, FinalStatus.Passed, Some(Level.City), None);
    assert Finalize(ADMIN, FinalStatus.Passed, Some(Level.City), None, 2, submitted, submitted)
        == Commit(submitted.(row := FinalizedRow()));
    hide Finalize, Submit;
    ExtendRun(states, events, Event(rq, 2, 1, 1));
    states, events := states + [submitted.(row := FinalizedRow())], events + [Event(rq, 2, 1, 1)];
  }

  /** The row of the shortest finalized application. */
  function FinalizedRow(): Row {
    Start(STUDENT.id, 0).row.(status := AppStatus.Completed, submittedAt := Some(1), version := 2, updatedAt := 2,
                              final := FinalDecision(FinalStatus.Passed, Some(Level.City), None, Some(2),
                                                     Some(ADMIN.id)))
  }

  /** The first task's criterion has evidence that a resubmission accepts. */
  function Imported(app: App, now: Time): App {
    app.(evidences := app.evidences + [Evidence("event", Criterion.Ethics, EvidenceStatus.UnderReview,
                                                IndexingStatus.Indexed, Some(Card(false, Some(NotRequired))))],
         row := app.row.(updatedAt := now))
  }

  lemma ExtendByImport(states: seq<App>, events: seq<Event>, now: Time)
    requires Run(states, events)
    ensures var last := |states| - 1;
            Run(states + [Imported(states[last], now)],
                events + [Event(RqImportEvent(ADMIN, "event", Criterion.Ethics, false), now, last, last)])
  {
    var last := |states| - 1;
    assert ImportEvent(ADMIN, "event", Criterion.Ethics, false, now, states[last], states[last])
        == Commit(Imported(states[last], now));
    hide ImportEvent, Imported;
    ExtendByStep(states, events, Event(RqImportEvent(ADMIN, "event", Criterion.Ethics, false), now, last, last),
                 Imported(states[last], now));
  }
}
