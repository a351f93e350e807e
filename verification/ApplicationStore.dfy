/** The services' transactions on one application, as they rewrite its rows in place. Each method is
    a whole request: what it read beforehand comes in as values, and it works statement by statement
    on the rows as they are once the lock is held. A refused request leaves the rows as they were;
    every method is proved to be the request function of the same name in `Aggregate`. */
module ApplicationStore {
  import opened ReviewTypes
  import opened Aggregate
  import opened Sequences

  /** What `BuildSubmitCriteria` promises determines the list. */
  lemma CriteriaAreDetermined(criteria: seq<Criterion>, evidences: seq<Evidence>, priorityFound: bool,
                              includePriority: bool)
    requires CORE_CRITERIA <= criteria && Distinct(criteria)
    requires forall c :: c in criteria <==>
               c in CORE_CRITERIA || (c.Priority? && includePriority && (priorityFound || HasEvidence(evidences, c)))
    ensures criteria == SubmitCriteria(evidences, priorityFound, includePriority)
  {
    OnlyPriorityFollows(criteria);
  }

  lemma OnlyPriorityFollows(s: seq<Criterion>)
    requires CORE_CRITERIA <= s && Distinct(s) && forall c :: c in s ==> c in CORE_CRITERIA || c.Priority?
    ensures s == if Criterion.Priority in s then CORE_CRITERIA + [Criterion.Priority] else CORE_CRITERIA
  {
    assert s[..5] == CORE_CRITERIA && forall k :: 0 <= k < 5 ==> s[k] == CORE_CRITERIA[k];
    assert |s| > 6 ==> s[5] != s[6];
    forall k | 5 <= k < |s| ensures s[k].Priority? {
      assert s[k] in s && s[k] != s[0] && s[k] != s[1] && s[k] != s[2] && s[k] != s[3] && s[k] != s[4];
    }
    assert |s| == 6 ==> s[5] in s && s == s[..5] + [s[5]];
    assert |s| == 5 ==> s == CORE_CRITERIA;
  }

  class Application {
    var row: Row
    var snapshots: seq<Snapshot>
    var tasks: seq<Task>
    var evidences: seq<Evidence>
    var finalHistory: seq<Superseded>
    var verification: Option<Verification>

    ghost function Value(): App
      reads this
    {
      App(row, snapshots, tasks, evidences, finalHistory, verification)
    }

    constructor StartCurrent(student: Id, now: Time)
      ensures Value() == Start(student, now)
      ensures row.studentId == student && row.appType.Individual? && row.targetLevel.City? && row.status.Draft?
              && row.version == |snapshots| == 1 && row.submittedAt.None? && row.cancelled.None? && row.archived.None?
              && row.updatedAt == now && !HasCurrentFinal(row) && tasks == [] && evidences == []
    {
      row := Row(student, AppType.Individual, Level.City, AppStatus.Draft, 1, None, NO_DECISION, None, None, now);
      snapshots := [Snapshot(1, student, InitialDraft(Level.City))];
      tasks, evidences, finalHistory, verification := [], [], [], None;
    }

    /** Runs under the row lock: compares status and version, then writes row and snapshot. */
    method WriteDraft(actor: Actor, read: Row, level: Option<Level>, content: SnapshotContent, now: Time)
      returns (error: Option<ErrorCode>)
      modifies this`row, this`snapshots
      ensures Outcome(Value(), error) == DraftCommit(actor, read, old(Value()), level, content, now)
    {
      if row.cancelled.Some? { return Some(ErrorCode.ApplicationCancelled); }
      if !Editable(row.status) || row.version != read.version { return Some(ErrorCode.ApplicationLocked); }
      if level.Some? {
        row := row.(targetLevel := level.value);
      }
      var version := read.version + 1;
      row := row.(version := version, updatedAt := now);
      snapshots := snapshots + [Snapshot(version, actor.id, content)];
      return None;
    }

    method UpdateTargetLevel(actor: Actor, level: Level, now: Time, first: App) returns (error: Option<ErrorCode>)
      modifies this`row, this`snapshots
      ensures Outcome(Value(), error) == Aggregate.UpdateTargetLevel(actor, level, now, first, old(Value()))
    {
      error := DraftGate(actor, first.row, true);
      if error.None? {
        error := WriteDraft(actor, first.row, Some(level), LevelChange(level, first.row.targetLevel), now);
      }
    }

    method AutosaveDraft(actor: Actor, level: Option<Level>, now: Time, first: App) returns (error: Option<ErrorCode>)
      modifies this`row, this`snapshots
      ensures Outcome(Value(), error) == Aggregate.AutosaveDraft(actor, level, now, first, old(Value()))
    {
      error := DraftGate(actor, first.row, level.Some?);
      if error.None? {
        error := WriteDraft(actor, first.row, level, DraftSave(level), now);
      }
    }

    /** The precheck stored inside the transaction is rolled back with it when the final comparison
        fails, and kept when only warnings block the submission. */
    method Submit(actor: Actor, ctx: SubmitContext, now: Time, first: App, second: App)
      returns (error: Option<ErrorCode>)
      modifies this
      ensures Outcome(Value(), error) == Aggregate.Submit(actor, ctx, now, first, second, old(Value()))
    {
      error := SubmitGate(actor, ctx, first, second);
      if error.Some? { return; }
      var windowed, initial := IndividualCity(first.row), InitialCitySubmission(actor, first.row);
      if row.cancelled.Some? { return Some(ErrorCode.ApplicationCancelled); }
      if windowed && !SameSubmissionState(first.row, second.row, row) { return Some(ErrorCode.ApplicationLocked); }
      if initial && !ctx.eligibleInTx { return Some(ErrorCode.NotEligible); }
      if windowed && (InitialCityWindow(first.row) || SupplementResubmission(second.row)) && !ctx.windowOpenInTx {
        return Some(ErrorCode.WindowClosed);
      }

      var before := row;
      var status, updatedAt := second.row.status, second.row.updatedAt;
      if initial && ctx.prepared.Some? {
        row := StorePrecheck(row, ctx.prepared.value.readStatus, ctx.prepared.value.ready, now);
        status, updatedAt := row.status, row.updatedAt;
      }
      if windowed && ctx.hasWarnings && !ctx.allowWarnings { return Some(ErrorCode.NotReady); }
      if row.status != status || row.targetLevel != second.row.targetLevel || row.version != second.row.version
         || row.submittedAt != second.row.submittedAt || row.updatedAt != updatedAt {
        row := before;
        return Some(ErrorCode.ApplicationLocked);
      }

      StoreSubmission(actor, ctx, now, first, second);
    }

    method StoreSubmission(actor: Actor, ctx: SubmitContext, now: Time, first: App, second: App)
      modifies this`row, this`snapshots, this`tasks, this`evidences
      ensures Value() == SubmittedApp(actor, ctx, now, first, second, old(Value()))
    {
      hide SubmitCriteria;
      var version := first.row.version + 1;
      row := row.(status := AppStatus.UnderReview,
                  submittedAt := if first.row.submittedAt.Some? then first.row.submittedAt else Some(now),
                  version := version, updatedAt := now);
      if SupplementResubmission(second.row) && HasSupplementTask(first.tasks) {
        SweepSupplementTasks(first.tasks, first.evidences, actor.id, now);
        MoveEvidenceToReview(SupplementCriteria(first.tasks));
      }
      snapshots := snapshots + [Snapshot(version, actor.id, Submission(now, first.row.targetLevel))];
      if first.tasks == [] {
        var includePriority := !IndividualCity(first.row);
        var criteria := BuildSubmitCriteria(first.evidences, ctx.priorityFound, includePriority);
        CriteriaAreDetermined(criteria, first.evidences, ctx.priorityFound, includePriority);
        CreateReviewTasks(criteria, first.evidences);
      }
    }

    /** The core criteria first and in order, and beside them priority exactly if it may be included and
        there is evidence or a precheck result for it; nothing twice. */
    static method BuildSubmitCriteria(evidences: seq<Evidence>, priorityFound: bool, includePriority: bool)
      returns (criteria: seq<Criterion>)
      ensures CORE_CRITERIA <= criteria && Distinct(criteria)
      ensures forall c :: c in criteria <==>
                c in CORE_CRITERIA || (c.Priority? && includePriority && (priorityFound || HasEvidence(evidences, c)))
    {
      criteria := CORE_CRITERIA;
      if includePriority && (HasEvidence(evidences, Criterion.Priority) || priorityFound) {
        criteria := criteria + [Criterion.Priority];
        assert criteria[5] == Criterion.Priority;
      }
    }

    method CreateReviewTasks(criteria: seq<Criterion>, evidences: seq<Evidence>)
      modifies this`tasks
      ensures tasks == old(tasks) + FreshTasks(criteria, evidences)
    {
      for k := 0 to |criteria|
        invariant tasks == old(tasks) + FreshTasks(criteria[..k], evidences)
      {
        tasks := tasks + [FreshTask(criteria[k], evidences)];
        assert FreshTasks(criteria[..k + 1], evidences)
            == FreshTasks(criteria[..k], evidences) + [FreshTask(criteria[k], evidences)];
      }
      assert criteria[..|criteria|] == criteria;
    }

    /** Links evidence and answers requests of the tasks the submission had read as outstanding, and
        puts every outstanding task back to waiting. */
    method SweepSupplementTasks(read: seq<Task>, evidences: seq<Evidence>, who: Id, now: Time)
      modifies this`tasks
      ensures tasks == GenericTasks(old(tasks), read, evidences, who, now)
    {
      for i := 0 to |tasks|
        invariant |tasks| == |old(tasks)|
        invariant forall k :: 0 <= k < i ==>
                    tasks[k]
                    == GenericTask(old(tasks)[k], if k < |read| then Some(read[k]) else None, evidences, who, now)
        invariant forall k :: i <= k < |tasks| ==> tasks[k] == old(tasks)[k]
      {
        var task := tasks[i];
        if i < |read| && read[i].status.SupplementRequired? {
          task := task.(links := task.links + EvidenceIds(evidences, task.criterion));
          var requests := AnswerActiveRequests(task.requests, who, now);
          task := task.(requests := requests);
        }
        if task.status.SupplementRequired? {
          task := task.(status := TaskStatus.Waiting, verdict := NO_VERDICT);
        }
        tasks := tasks[i := task];
      }
    }

    static method AnswerActiveRequests(requests: seq<SupplementRequest>, who: Id, now: Time)
      returns (answered: seq<SupplementRequest>)
      ensures answered == MarkActive(requests, who, now)
    {
      answered := requests;
      for i := 0 to |requests|
        invariant |answered| == |requests|
        invariant forall k :: 0 <= k < i ==> answered[k] == MarkActive(requests, who, now)[k]
        invariant forall k :: i <= k < |requests| ==> answered[k] == requests[k]
      {
        if answered[i].status.Active? {
          answered := answered[i := MarkResubmitted(answered[i], who, now)];
        }
      }
    }

    method MoveEvidenceToReview(criteria: set<Criterion>)
      modifies this`evidences
      ensures evidences == MoveEvidence(old(evidences), criteria)
    {
      for i := 0 to |evidences|
        invariant |evidences| == |old(evidences)|
        invariant forall k :: 0 <= k < i ==> evidences[k] == MoveEvidence(old(evidences), criteria)[k]
        invariant forall k :: i <= k < |evidences| ==> evidences[k] == old(evidences)[k]
      {
        if evidences[i].criterion in criteria && Movable(evidences[i].status) {
          evidences := evidences[i := evidences[i].(status := EvidenceStatus.UnderReview)];
        }
      }
    }

    method ReopenSupplement(actor: Actor, now: Time, first: App) returns (error: Option<ErrorCode>)
      modifies this`row
      ensures Outcome(Value(), error) == Aggregate.ReopenSupplement(actor, now, first, old(Value()))
    {
      if !(actor.role.Manager? || actor.role.CityManager? || actor.role.Admin?) { return Some(ErrorCode.Forbidden); }
      if IndividualCity(first.row) && !(actor.role.CityManager? || actor.role.Admin?) {
        return Some(ErrorCode.Forbidden);
      }
      if first.row.cancelled.Some? || row.cancelled.Some? { return Some(ErrorCode.ApplicationCancelled); }
      row := row.(status := AppStatus.SupplementRequired, updatedAt := now);
      return None;
    }

    method Cancel(actor: Actor, reason: string, now: Time, first: App) returns (error: Option<ErrorCode>)
      modifies this`row, this`finalHistory
      ensures Outcome(Value(), error) == Aggregate.Cancel(actor, reason, now, first, old(Value()))
    {
      error := LifecycleGate(actor, first);
      if error.Some? { return; }
      if row.cancelled.Some? { return Some(ErrorCode.ApplicationLocked); }
      var hasFinal := HasCurrentFinal(row);
      if row.submittedAt.None? && !hasFinal { return Some(ErrorCode.ApplicationLocked); }
      if hasFinal {
        finalHistory := finalHistory + [Superseded(row.final, now, actor.id, reason)];
        row := row.(final := NO_DECISION);
      }
      row := row.(cancelled := Some(Stamp(now, actor.id, Some(reason))), updatedAt := now);
    }

    method ReopenCancelled(actor: Actor, now: Time, first: App) returns (error: Option<ErrorCode>)
      modifies this`row
      ensures Outcome(Value(), error) == Aggregate.ReopenCancelled(actor, now, first, old(Value()))
    {
      error := LifecycleGate(actor, first);
      if error.Some? { return; }
      if row.cancelled.None? { return Some(ErrorCode.ApplicationLocked); }
      var status := row.status;
      if Terminal(status) && |finalHistory| > 0 {
        var outstanding := FindOutstanding();
        status := if outstanding then AppStatus.SupplementRequired else AppStatus.UnderReview;
      }
      row := row.(status := status, cancelled := None, updatedAt := now);
      if row.archived.Some? {
        row := row.(archived := None);
      }
    }

    /** Looks for a task awaiting a supplement or a request nobody answered. */
    method FindOutstanding() returns (found: bool)
      ensures found <==> HasSupplementTask(tasks) || HasOpenRequest(tasks)
    {
      for i := 0 to |tasks|
        invariant forall k :: 0 <= k < i ==>
                    !tasks[k].status.SupplementRequired?
                    && forall j :: 0 <= j < |tasks[k].requests| ==> !Unanswered(tasks[k].requests[j])
      {
        if tasks[i].status.SupplementRequired? { return true; }
        for j := 0 to |tasks[i].requests|
          invariant forall m :: 0 <= m < j ==> !Unanswered(tasks[i].requests[m])
        {
          if Unanswered(tasks[i].requests[j]) { return true; }
        }
      }
      return false;
    }

    method Archive(actor: Actor, reason: Option<string>, now: Time, first: App) returns (error: Option<ErrorCode>)
      modifies this`row
      ensures Outcome(Value(), error) == Aggregate.Archive(actor, reason, now, first, old(Value()))
    {
      error := LifecycleGate(actor, first);
      if error.Some? { return; }
      if row.archived.Some? { return Some(ErrorCode.ApplicationLocked); }
      if !Terminal(row.status) && row.cancelled.None? { return Some(ErrorCode.ApplicationLocked); }
      row := row.(archived := Some(Stamp(now, actor.id, reason)), updatedAt := now);
    }

    method Unarchive(actor: Actor, now: Time, first: App) returns (error: Option<ErrorCode>)
      modifies this`row
      ensures Outcome(Value(), error) == Aggregate.Unarchive(actor, now, first, old(Value()))
    {
      error := LifecycleGate(actor, first);
      if error.Some? { return; }
      if row.archived.None? { return Some(ErrorCode.ApplicationLocked); }
      row := row.(archived := None, updatedAt := now);
    }

    method VerifyEligibility(actor: Actor, approved: bool, basisHash: string, needsVerification: bool, now: Time,
                             first: App)
      returns (error: Option<ErrorCode>)
      modifies this`row, this`verification
      ensures Outcome(Value(), error)
              == Aggregate.VerifyEligibility(actor, approved, basisHash, needsVerification, now, first, old(Value()))
    {
      if !actor.role.CityManager? { return Some(ErrorCode.Forbidden); }
      if !IndividualCity(first.row) { return Some(ErrorCode.NotFound); }
      if !BeforeInitialSubmission(first.row) { return Some(ErrorCode.ApplicationLocked); }
      if !needsVerification { return Some(ErrorCode.VerificationNotRequired); }
      if row.cancelled.Some? { return Some(ErrorCode.ApplicationCancelled); }
      if !IndividualCity(row) || !BeforeInitialSubmission(row) { return Some(ErrorCode.ApplicationLocked); }
      var decidedAt := if now > row.updatedAt then now else row.updatedAt + 1;
      row := row.(updatedAt := decidedAt);
      verification := Some(Verification(approved, basisHash, actor.id, decidedAt));
      return None;
    }

    method Resubmit(actor: Actor, t: nat, deadlineOpen: bool, now: Time, first: App) returns (error: Option<ErrorCode>)
      modifies this`row, this`tasks, this`evidences
      ensures Outcome(Value(), error) == Aggregate.Resubmit(actor, t, deadlineOpen, now, first, old(Value()))
    {
      if !actor.role.Student? { return Some(ErrorCode.Forbidden); }
      if t >= |first.tasks| || first.row.studentId != actor.id || !first.tasks[t].status.SupplementRequired? {
        return Some(ErrorCode.NotFound);
      }
      if first.row.cancelled.Some? || row.cancelled.Some? { return Some(ErrorCode.ApplicationCancelled); }
      if t >= |tasks| || row.studentId != actor.id || !tasks[t].status.SupplementRequired? {
        return Some(ErrorCode.NotFound);
      }
      if !row.targetLevel.City? { return Some(ErrorCode.NotSubmittable); }
      var task := tasks[t];
      var active, legacy := ActiveIndex(task.requests), LegacyMessage(task);
      if active.None? && legacy.None? { return Some(ErrorCode.NotFound); }
      if IndividualCity(row) && !deadlineOpen { return Some(ErrorCode.WindowClosed); }
      if !ReadyToResubmit(App(row, snapshots, tasks, evidences, finalHistory, verification), t, now) {
        return Some(ErrorCode.NotReady);
      }

      task := task.(links := task.links + EvidenceIds(evidences, task.criterion));
      var k := 0;
      if active.Some? {
        k := active.value;
      } else {
        var created := SupplementRequest(RequestStatus.Active, legacy.value, None, None,
                                         [HistoryItem(now, actor.id, LegacyMigrated)]);
        task := task.(requests := [created] + task.requests);
      }
      task := task.(requests := task.requests[k := MarkResubmitted(task.requests[k], actor.id, now)]);
      task := task.(status := TaskStatus.Waiting, verdict := NO_VERDICT);
      assert task.requests == ResubmittedRequests(tasks[t], actor.id, now).value;
      tasks := tasks[t := task];
      var remaining := HasSupplementTask(tasks);
      row := row.(status := if remaining then AppStatus.SupplementRequired else AppStatus.UnderReview,
                  updatedAt := now);
      MoveEvidenceToReview({task.criterion});
      return None;
    }
  }
}
