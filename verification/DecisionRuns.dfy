/** Final decisions, and the closing, archiving and reopening of applications, over every interleaving of requests. */
module DecisionRuns {
  import opened ReviewTypes
  import opened Aggregate
  import opened AggregateRuns

  // ---------- Archiving ----------

  /** An archived application is terminal or cancelled. */
  predicate Warranted(row: Row) { row.archived.Some? ==> Terminal(row.status) || row.cancelled.Some? }

  /** What puts a closed application back to work and leaves its archive stamp: reopening it for a supplement, its
      result or a case of it, a review decision or a resolution that does not close it as failed, an aggregation of
      tasks that are not all accepted, the assistant's resubmission, and a precheck or a repair that had read it
      before. */
  predicate PutsBack(rq: Request, now: Time, first: App, second: App, cur: App) {
    var outcome := Perform(rq, now, first, second, cur);
    && outcome.error.None? && cur.row.cancelled.None?
    && match rq
       case RqReopenSupplement(_) => true
       case RqReopenFinal(_, _, _) => true
       case RqReopenCase => true
       case RqAssistantResubmit(_, _) => true
       case RqPrecheck(ready) => NextPrecheckStatus(first.row.status, ready).Some?
       case RqEnsureTasks => first.row.status.Submitted?
       case RqAggregate(_) => !(first.tasks != [] && AllAccepted(first.tasks))
       case RqOfficerDecides(_, _, _, _, _, _, _) => !ClosesAsFailed(outcome.app.tasks, IndividualCity(first.row))
       case RqResolveCase(_, resolution, _, openCases, _) =>
         resolution.ResolveSupplement? || openCases || !ClosesAsFailed(outcome.app.tasks, IndividualCity(first.row))
       case _ => false
  }

  lemma SyncClosesIff(row: Row, tasks: seq<Task>, cityIndividual: bool, now: Time)
    requires tasks != []
    ensures Terminal(SyncOutcome(row, tasks, cityIndividual, now).status) <==> ClosesAsFailed(tasks, cityIndividual)
    ensures SyncOutcome(row, tasks, cityIndividual, now).archived == row.archived
    ensures SyncOutcome(row, tasks, cityIndividual, now).cancelled == row.cancelled
  {
    FinalAfterSync(row, tasks, cityIndividual, now);
  }

  lemma ResolutionClosesIff(row: Row, resolution: Resolution, openCases: bool, tasks: seq<Task>, cityIndividual: bool,
                            now: Time)
    ensures var after := ResolvedRow(row, resolution, openCases, tasks, cityIndividual, now);
            && (Terminal(after.status)
                <==> !resolution.ResolveSupplement? && !openCases && ClosesAsFailed(tasks, cityIndividual))
            && after.archived == row.archived && after.cancelled == row.cancelled
  {
  }

  lemma DecisionStaysWarrantedIff(rq: Request, now: Time, first: App, second: App, cur: App)
    requires rq.RqOfficerDecides? || rq.RqResolveCase?
    requires Warranted(cur.row)
    ensures Warranted(Perform(rq, now, first, second, cur).app.row)
            <==> !(cur.row.archived.Some? && PutsBack(rq, now, first, second, cur))
  {
    hide DecidedTask, ResolvedTask, SyncOutcome, ResolvedRow, ClosesAsFailed, HasSupplementTask;
    var next := Perform(rq, now, first, second, cur).app;
    if rq.RqOfficerDecides? && next.tasks != [] {
      SyncClosesIff(cur.row, next.tasks, IndividualCity(first.row), now);
    } else if rq.RqResolveCase? {
      ResolutionClosesIff(cur.row, rq.resolution, rq.openCases, next.tasks, IndividualCity(first.row), now);
    }
  }

  lemma LifecycleStaysWarrantedIff(rq: Request, now: Time, first: App, second: App, cur: App)
    requires IsLifecycle(rq) && Warranted(cur.row)
    ensures Warranted(Perform(rq, now, first, second, cur).app.row)
            <==> !(cur.row.archived.Some? && PutsBack(rq, now, first, second, cur))
  {
    hide SuggestedStatus, AllAccepted, HasSupplementTask, HasOpenRequest;
    CompletedIff(first.tasks);
  }

  lemma SubmitStaysWarranted(actor: Actor, ctx: SubmitContext, now: Time, first: App, second: App, cur: App)
    requires Warranted(cur.row)
    ensures Warranted(Submit(actor, ctx, now, first, second, cur).app.row)
  {
    hide FreshTasks, GenericTasks, SubmitCriteria, MoveEvidence, SupplementCriteria, HasSupplementTask;
  }

  lemma ReviewStaysWarrantedIff(rq: Request, now: Time, first: App, second: App, cur: App)
    requires !IsLifecycle(rq) && !Decides(rq) && !rq.RqSubmit? && Warranted(cur.row)
    ensures Warranted(Perform(rq, now, first, second, cur).app.row)
            <==> !(cur.row.archived.Some? && PutsBack(rq, now, first, second, cur))
  {
    hide DraftGate, ResubmittedTask, ResubmittedRequests, MissingCriteria, EnsuredCriteria, FreshTasks, MoveEvidence,
      HasSupplementTask, ProcessedEvidences, AssistedTask;
  }

  /** Of all steps exactly those leave an archived application open. */
  lemma ArchiveStaysWarrantedIff(rq: Request, now: Time, first: App, second: App, cur: App)
    requires Warranted(cur.row)
    ensures Warranted(Perform(rq, now, first, second, cur).app.row)
            <==> !(cur.row.archived.Some? && PutsBack(rq, now, first, second, cur))
  {
    if rq.RqSubmit? {
      hide Submit;
      SubmitStaysWarranted(rq.actor, rq.ctx, now, first, second, cur);
    } else {
      if rq.RqOfficerDecides? || rq.RqResolveCase? {
        DecisionStaysWarrantedIff(rq, now, first, second, cur);
      } else if IsLifecycle(rq) {
        LifecycleStaysWarrantedIff(rq, now, first, second, cur);
      } else {
        ReviewStaysWarrantedIff(rq, now, first, second, cur);
      }
      hide Perform, PutsBack;
    }
  }

  ghost predicate PutsBackAt(states: seq<App>, events: seq<Event>, i: nat)
    requires Run(states, events) && i < |events|
  {
    assert Follows(states, events, i);
    var e := events[i];
    states[i].row.archived.Some? && PutsBack(e.rq, e.now, states[e.first], states[e.second], states[i])
  }

  lemma {:induction false} ArchivedAreClosed(states: seq<App>, events: seq<Event>, i: nat)
    requires Run(states, events) && i < |states| && forall k :: 0 <= k < i ==> !PutsBackAt(states, events, k)
    ensures Warranted(states[i].row)
  {
    hide Perform, PutsBack;
    if i > 0 {
      ArchivedAreClosed(states, events, i - 1);
      var e := events[i - 1];
      assert Follows(states, events, i - 1) && !PutsBackAt(states, events, i - 1);
      ArchiveStaysWarrantedIff(e.rq, e.now, states[e.first], states[e.second], states[i - 1]);
    }
  }

  /** Throughout a run archived applications are closed or cancelled exactly if none is put back while archived. */
  lemma RunIsWarrantedIff(states: seq<App>, events: seq<Event>)
    requires Run(states, events)
    ensures (forall j :: 0 <= j < |states| ==> Warranted(states[j].row))
            <==> forall i :: 0 <= i < |events| ==> !PutsBackAt(states, events, i)
  {
    hide Perform, PutsBack, Warranted;
    if forall i :: 0 <= i < |events| ==> !PutsBackAt(states, events, i) {
      forall j | 0 <= j < |states| ensures Warranted(states[j].row) {
        ArchivedAreClosed(states, events, j);
      }
    } else {
      var i :| 0 <= i < |events| && PutsBackAt(states, events, i);
      var e := events[i];
      assert Follows(states, events, i);
      if Warranted(states[i].row) {
        ArchiveStaysWarrantedIff(e.rq, e.now, states[e.first], states[e.second], states[i]);
      }
    }
  }

  /** It does happen: an application is submitted, finalized, archived and then reopened for a supplement. */
  lemma ArchivedIsReopened()
    ensures exists states: seq<App>, events: seq<Event> ::
              Run(states, events) && |events| == 4 && events[3].rq.RqReopenSupplement?
              && Warranted(states[3].row) && !Warranted(states[4].row)
  {
    var states, events := FinalizedRun();
    var finalized := states[2];
    var archived := finalized.(row := finalized.row.(archived := Some(Stamp(3, ADMIN.id, None)), updatedAt := 3));
    var reopened := archived.(row := archived.row.(status := AppStatus.SupplementRequired, updatedAt := 4));
    assert Archive(ADMIN, None, 3, finalized, finalized) == Commit(archived);
    assert ReopenSupplement(ADMIN, 4, archived, archived) == Commit(reopened);
    hide Archive, ReopenSupplement, Submit;
    ExtendRun(states, events, Event(RqArchive(ADMIN, None), 3, 2, 2));
    states, events := states + [archived], events + [Event(RqArchive(ADMIN, None), 3, 2, 2)];
    ExtendRun(states, events, Event(RqReopenSupplement(ADMIN), 4, 3, 3));
    states, events := states + [reopened], events + [Event(RqReopenSupplement(ADMIN), 4, 3, 3)];
    assert Run(states, events) && states[3] == archived && states[4] == reopened;
  }

  /** Archiving and unarchiving changes nothing but the update time. */
  lemma ArchiveThenUnarchiveRestores(actor: Actor, why: Option<string>, t1: Time, t2: Time, first: App, cur: App)
    requires LifecycleGate(actor, first).None?
    ensures var archived := Archive(actor, why, t1, first, cur);
            (archived.error.None? <==> cur.row.archived.None? && (Terminal(cur.row.status) || cur.row.cancelled.Some?))
            && (archived.error.None? ==>
                  Unarchive(actor, t2, first, archived.app) == Commit(cur.(row := cur.row.(updatedAt := t2))))
  {
  }

  // ---------- Final decisions ----------

  function PastDecisions(history: seq<Superseded>): (decisions: seq<FinalDecision>)
    ensures |decisions| == |history|
  {
    seq(|history|, i requires 0 <= i < |history| => history[i].decision)
  }

  /** Every final decision the application ever had, oldest first, the current one last. */
  function Decisions(app: App): seq<FinalDecision> {
    PastDecisions(app.finalHistory) + (if HasCurrentFinal(app.row) then [app.row.final] else [])
  }

  predicate Supersedes(rq: Request) { rq.RqCancel? || rq.RqReopenFinal? }

  /** The requests that write a final decision, or clear one without keeping it. */
  predicate Decides(rq: Request) { rq.RqFinalize? || rq.RqOfficerDecides? || rq.RqResolveCase? }

  lemma FinalsAreKept(rq: Request, now: Time, first: App, second: App, cur: App)
    requires !Decides(rq) && !Supersedes(rq)
    ensures var next := Perform(rq, now, first, second, cur).app;
            next.finalHistory == cur.finalHistory && next.row.final == cur.row.final
  {
    hide SubmitGate, DraftGate, ReadyToResubmit, SameSubmissionState, LifecycleGate, FreshTasks, GenericTasks,
      ResubmittedTask, ResubmittedRequests, MissingCriteria, EnsuredCriteria, SubmitCriteria, MoveEvidence,
      SupplementCriteria, HasSupplementTask, HasOpenRequest, SuggestedStatus, ProcessedEvidences, AssistedTask;
  }

  lemma SupersedingKeepsDecisions(rq: Request, now: Time, first: App, second: App, cur: App)
    requires Supersedes(rq)
    ensures Decisions(Perform(rq, now, first, second, cur).app) == Decisions(cur)
  {
    var next := Perform(rq, now, first, second, cur).app;
    if next.finalHistory != cur.finalHistory {
      assert PastDecisions(next.finalHistory) == PastDecisions(cur.finalHistory) + [cur.row.final];
    }
  }

  /** Every step but finalization, an officer's decision and the resolution of a case conserves the final decisions
      field for field: a cancellation and a reopening only move the current one to the end of the history. */
  lemma DecisionsAreConserved(rq: Request, now: Time, first: App, second: App, cur: App)
    requires !Decides(rq)
    ensures Decisions(Perform(rq, now, first, second, cur).app) == Decisions(cur)
  {
    if Supersedes(rq) {
      SupersedingKeepsDecisions(rq, now, first, second, cur);
    } else {
      FinalsAreKept(rq, now, first, second, cur);
    }
    hide Perform;
  }

  ghost predicate Undecided(events: seq<Event>, from: nat, to: nat)
    requires from <= to <= |events|
  {
    forall k :: from <= k < to ==> !Decides(events[k].rq)
  }

  /** Over any stretch of a run without those three, in whatever interleaving, no final decision appears or is
      lost. */
  lemma {:induction false} RunsConserveDecisions(states: seq<App>, events: seq<Event>, i: nat, j: nat)
    requires Run(states, events) && i <= j < |states| && Undecided(events, i, j)
    ensures Decisions(states[j]) == Decisions(states[i])
  {
    hide Decisions, Perform;
    if i < j {
      RunsConserveDecisions(states, events, i, j - 1);
      var e := events[j - 1];
      assert Follows(states, events, j - 1);
      DecisionsAreConserved(e.rq, e.now, states[e.first], states[e.second], states[j - 1]);
    }
  }

  /** Finalizing a City application only ever adds a decision. */
  lemma CityFinalizationAddsOneDecision(rq: Request, now: Time, first: App, second: App, cur: App)
    requires rq.RqFinalize? && IndividualCity(first.row)
    ensures var outcome := Perform(rq, now, first, second, cur);
            if outcome.error.None?
            then Decisions(outcome.app) == Decisions(cur) + [outcome.app.row.final] && Terminal(outcome.app.row.status)
            else outcome.app == cur
  {
  }

  /** A decision on a task drops a current final decision, leaving no history record, unless it closes the
      application as failed, which puts a new one in its place: so it conserves the decisions exactly if there is
      none to drop, or the one put in its place is the same. */
  lemma OfficerDecisionConservesIff(rq: Request, now: Time, first: App, second: App, cur: App)
    requires rq.RqOfficerDecides? && Perform(rq, now, first, second, cur).error.None?
    ensures var next := Perform(rq, now, first, second, cur).app;
            && next.finalHistory == cur.finalHistory
            && (HasCurrentFinal(next.row) <==> ClosesAsFailed(next.tasks, IndividualCity(first.row)))
            && (Decisions(next) == Decisions(cur)
                <==> if ClosesAsFailed(next.tasks, IndividualCity(first.row)) then cur.row.final == next.row.final
                     else !HasCurrentFinal(cur.row))
  {
    hide DecidedTask, HasSupplementTask, SyncOutcome, Decisions, ClosesAsFailed;
    var next := Perform(rq, now, first, second, cur).app;
    FinalAfterSync(cur.row, next.tasks, IndividualCity(first.row), now);
    SameDecisionsIff(cur, next);
  }

  /** The same of the resolution of a case, which closes the application as failed only if no other case is open
      and no supplement is asked for. */
  lemma ResolutionConservesIff(rq: Request, now: Time, first: App, second: App, cur: App)
    requires rq.RqResolveCase? && Perform(rq, now, first, second, cur).error.None?
    ensures var next := Perform(rq, now, first, second, cur).app;
            var closes := !rq.resolution.ResolveSupplement? && !rq.openCases
                          && ClosesAsFailed(next.tasks, IndividualCity(first.row));
            && next.finalHistory == cur.finalHistory
            && (HasCurrentFinal(next.row) <==> closes)
            && (Decisions(next) == Decisions(cur)
                <==> if closes then cur.row.final == next.row.final else !HasCurrentFinal(cur.row))
  {
    hide ResolvedTask, HasSupplementTask, ResolvedRow, Decisions, ClosesAsFailed;
    var next := Perform(rq, now, first, second, cur).app;
    FinalAfterResolution(cur.row, rq.resolution, rq.openCases, next.tasks, IndividualCity(first.row), now);
    SameDecisionsIff(cur, next);
  }

  lemma FinalAfterResolution(row: Row, resolution: Resolution, openCases: bool, tasks: seq<Task>, cityIndividual: bool,
                             now: Time)
    ensures HasCurrentFinal(ResolvedRow(row, resolution, openCases, tasks, cityIndividual, now))
            <==> !resolution.ResolveSupplement? && !openCases && ClosesAsFailed(tasks, cityIndividual)
  {
  }

  lemma SameDecisionsIff(a: App, b: App)
    requires a.finalHistory == b.finalHistory
    ensures Decisions(a) == Decisions(b)
            <==> HasCurrentFinal(a.row) == HasCurrentFinal(b.row)
                 && (HasCurrentFinal(a.row) ==> a.row.final == b.row.final)
  {
    assert HasCurrentFinal(a.row) ==> Decisions(a)[|a.finalHistory|] == a.row.final;
    assert HasCurrentFinal(b.row) ==> Decisions(b)[|a.finalHistory|] == b.row.final;
  }

  lemma FinalAfterSync(row: Row, tasks: seq<Task>, cityIndividual: bool, now: Time)
    requires tasks != []
    ensures HasCurrentFinal(SyncOutcome(row, tasks, cityIndividual, now)) <==> ClosesAsFailed(tasks, cityIndividual)
  {
    if !ClosesAsFailed(tasks, cityIndividual) && !cityIndividual {
      if i :| 0 <= i < |tasks| && !(tasks[i].status.Accepted? || tasks[i].status.Rejected?) {
        assert tasks[i].status.Waiting? || tasks[i].status.Reviewing? || tasks[i].status.SupplementRequired?
               || tasks[i].status.ResolutionNeeded?;
      }
    }
  }

  /** It does happen: an application is submitted and finalized, an officer decides one of its tasks, and the final
      decision is on record nowhere. */
  lemma OfficerDecisionLosesADecision()
    ensures exists states: seq<App>, events: seq<Event> ::
              Run(states, events) && |events| == 3 && events[2].rq.RqOfficerDecides?
              && Decisions(states[2]) == [FinalizedRow().final] && Decisions(states[3]) == []
  {
    var states, events := FinalizedRun();
    var finalized := states[2];
    var rq := RqOfficerDecides(Actor("officer", Role.Officer), 0, Decision.Accept, NO_VERDICT, None, "", []);
    var outcome := Perform(rq, 3, finalized, finalized, finalized);
    DecidingAFinalizedApplication(finalized, rq);
    hide Perform, Decisions;
    ExtendRun(states, events, Event(rq, 3, 2, 2));
    states, events := states + [outcome.app], events + [Event(rq, 3, 2, 2)];
    assert Run(states, events) && states[2] == finalized && states[3] == outcome.app;
  }

  lemma DecidingAFinalizedApplication(app: App, rq: Request)
    requires app.row == FinalizedRow() && app.tasks == FreshTasks(CORE_CRITERIA, []) && app.finalHistory == []
    requires rq == RqOfficerDecides(Actor("officer", Role.Officer), 0, Decision.Accept, NO_VERDICT, None, "", [])
    ensures Decisions(app) == [FinalizedRow().final] && Decisions(Perform(rq, 3, app, app, app).app) == []
  {
    OfficerDecisionConservesIff(rq, 3, app, app, app);
  }

  /** So does the resolution of a case. */
  lemma ResolutionLosesADecision()
    ensures exists states: seq<App>, events: seq<Event> ::
              Run(states, events) && |events| == 3 && events[2].rq.RqResolveCase?
              && Decisions(states[2]) == [FinalizedRow().final] && Decisions(states[3]) == []
  {
    var states, events := FinalizedRun();
    var finalized := states[2];
    var rq := RqResolveCase(None, NoAction, "closed", false, []);
    var outcome := Perform(rq, 3, finalized, finalized, finalized);
    ResolvingAFinalizedApplication(finalized, rq);
    hide Perform, Decisions;
    ExtendRun(states, events, Event(rq, 3, 2, 2));
    states, events := states + [outcome.app], events + [Event(rq, 3, 2, 2)];
    assert Run(states, events) && states[2] == finalized && states[3] == outcome.app;
  }

  lemma ResolvingAFinalizedApplication(app: App, rq: Request)
    requires app.row == FinalizedRow() && app.finalHistory == []
             && rq == RqResolveCase(None, NoAction, "closed", false, [])
    ensures Decisions(app) == [FinalizedRow().final] && Decisions(Perform(rq, 3, app, app, app).app) == []
  {
    ResolutionConservesIff(rq, 3, app, app, app);
  }

  // ---------- Closed applications ----------

  /** A terminal application has a current decision, or, if cancelled, one in its history; a
      cancelled application has no current decision. */
  predicate Accounted(app: App) {
    && (Terminal(app.row.status) ==>
          if app.row.cancelled.None? then HasCurrentFinal(app.row) else app.finalHistory != [])
    && (app.row.cancelled.Some? ==> !HasCurrentFinal(app.row))
  }

  /** An aggregation that had read only accepted tasks commits where there is no final decision. */
  predicate ClosesUndecided(rq: Request, first: App, cur: App) {
    && rq.RqAggregate? && AggregateReview(rq.actor, 0, first, cur).error.None?
    && first.tasks != [] && AllAccepted(first.tasks) && !HasCurrentFinal(cur.row)
  }

  lemma CompletedIff(tasks: seq<Task>)
    ensures Terminal(SuggestedStatus(tasks)) <==> tasks != [] && AllAccepted(tasks)
  {
  }

  lemma AggregationKeepsAccountedIff(actor: Actor, now: Time, first: App, cur: App)
    requires Accounted(cur)
    ensures Accounted(AggregateReview(actor, now, first, cur).app) <==> !ClosesUndecided(RqAggregate(actor), first, cur)
  {
    hide SuggestedStatus, AllAccepted;
    CompletedIff(first.tasks);
  }

  lemma SubmitKeepsAccounted(actor: Actor, ctx: SubmitContext, now: Time, first: App, second: App, cur: App)
    requires Accounted(cur)
    ensures Accounted(Submit(actor, ctx, now, first, second, cur).app)
  {
    hide SameSubmissionState, FreshTasks, GenericTasks, SubmitCriteria, MoveEvidence, SupplementCriteria,
      HasSupplementTask;
  }

  lemma DecisionKeepsAccounted(rq: Request, now: Time, first: App, second: App, cur: App)
    requires Accounted(cur) && Decides(rq)
    ensures Accounted(Perform(rq, now, first, second, cur).app)
  {
    hide DecidedTask, ResolvedTask, HasSupplementTask, ClosesAsFailed;
  }

  lemma LifecycleKeepsAccounted(rq: Request, now: Time, first: App, second: App, cur: App)
    requires Accounted(cur) && IsLifecycle(rq) && !Decides(rq) && !rq.RqAggregate?
    ensures Accounted(Perform(rq, now, first, second, cur).app)
  {
    hide HasSupplementTask, HasOpenRequest;
  }

  lemma ReviewKeepsAccounted(rq: Request, now: Time, first: App, second: App, cur: App)
    requires Accounted(cur) && !rq.RqSubmit? && !Decides(rq) && !IsLifecycle(rq)
    ensures Accounted(Perform(rq, now, first, second, cur).app)
  {
    hide DraftGate, ReadyToResubmit, ResubmittedTask, ResubmittedRequests, MissingCriteria, EnsuredCriteria, FreshTasks,
      MoveEvidence, HasSupplementTask, ProcessedEvidences, AssistedTask;
  }

  /** Of all steps only such an aggregation leaves a closed application without a decision. */
  lemma StepKeepsAccountedIff(rq: Request, now: Time, first: App, second: App, cur: App)
    requires Accounted(cur)
    ensures Accounted(Perform(rq, now, first, second, cur).app) <==> !ClosesUndecided(rq, first, cur)
  {
    hide Submit, AggregateReview, Accounted, ClosesUndecided;
    if rq.RqAggregate? {
      AggregationKeepsAccountedIff(rq.actor, now, first, cur);
    } else if rq.RqSubmit? {
      SubmitKeepsAccounted(rq.actor, rq.ctx, now, first, second, cur);
    } else if Decides(rq) {
      DecisionKeepsAccounted(rq, now, first, second, cur);
    } else if IsLifecycle(rq) {
      LifecycleKeepsAccounted(rq, now, first, second, cur);
    } else {
      ReviewKeepsAccounted(rq, now, first, second, cur);
    }
    OnlyAggregationCloses(rq, first, cur);
    if !rq.RqAggregate? && !rq.RqSubmit? {
      hide Perform;
    }
  }

  lemma OnlyAggregationCloses(rq: Request, first: App, cur: App)
    ensures ClosesUndecided(rq, first, cur) ==> rq.RqAggregate?
  {
  }

  ghost predicate ClosesUndecidedAt(states: seq<App>, events: seq<Event>, i: nat)
    requires Run(states, events) && i < |events|
  {
    ClosesUndecided(events[i].rq, FirstRead(states, events, i), states[i])
  }

  /** Up to any moment of a run without such an aggregation every state is accounted for. */
  lemma {:induction false} TerminalApplicationsHaveADecision(states: seq<App>, events: seq<Event>, i: nat)
    requires Run(states, events) && i < |states| && forall k :: 0 <= k < i ==> !ClosesUndecidedAt(states, events, k)
    ensures Accounted(states[i])
  {
    hide Perform, ClosesUndecided;
    if i > 0 {
      TerminalApplicationsHaveADecision(states, events, i - 1);
      var e := events[i - 1];
      assert Follows(states, events, i - 1) && !ClosesUndecidedAt(states, events, i - 1);
      StepKeepsAccountedIff(e.rq, e.now, states[e.first], states[e.second], states[i - 1]);
    }
  }

  /** A closed application has a final decision throughout a run exactly if no aggregation closes one that has
      none. */
  lemma RunIsAccountedIff(states: seq<App>, events: seq<Event>)
    requires Run(states, events)
    ensures (forall j :: 0 <= j < |states| ==> Accounted(states[j]))
            <==> forall i :: 0 <= i < |events| ==> !ClosesUndecidedAt(states, events, i)
  {
    hide Perform, ClosesUndecided, Accounted;
    if forall i :: 0 <= i < |events| ==> !ClosesUndecidedAt(states, events, i) {
      forall j | 0 <= j < |states| ensures Accounted(states[j]) {
        TerminalApplicationsHaveADecision(states, events, j);
      }
    } else {
      var i :| 0 <= i < |events| && ClosesUndecidedAt(states, events, i);
      var e := events[i];
      assert Follows(states, events, i);
      if Accounted(states[i]) {
        StepKeepsAccountedIff(e.rq, e.now, states[e.first], states[e.second], states[i]);
      }
    }
  }

  /** Reopening a cancelled application leaves it closed exactly if it was closed and no decision was ever
      superseded. */
  lemma ReopeningLeavesClosedIff(rq: Request, now: Time, first: App, second: App, cur: App)
    requires rq.RqReopenCancelled? && Perform(rq, now, first, second, cur).error.None?
    ensures var next := Perform(rq, now, first, second, cur).app;
            && next.row.cancelled.None? && next.row.archived.None?
            && (Terminal(next.row.status) <==> Terminal(cur.row.status) && cur.finalHistory == [])
  {
  }

  /** Over a run, reopening a cancelled application leaves it closed exactly in that case, and never unless an
      aggregation had closed it without a decision before. */
  lemma ReopenedApplicationsAreOpen(states: seq<App>, events: seq<Event>, i: nat)
    requires Run(states, events) && i < |events|
    requires events[i].rq.RqReopenCancelled?
    requires OutcomeAt(states, events, i).error.None?
    ensures states[i + 1].row.cancelled.None? && states[i + 1].row.archived.None?
    ensures Terminal(states[i + 1].row.status) <==> Terminal(states[i].row.status) && states[i].finalHistory == []
    ensures Terminal(states[i + 1].row.status) ==>
              exists k :: 0 <= k < i && ClosesUndecidedAt(states, events, k) && !Accounted(states[i])
  {
    assert Follows(states, events, i);
    var e := events[i];
    ReopeningLeavesClosedIff(e.rq, e.now, states[e.first], states[e.second], states[i]);
    if Terminal(states[i + 1].row.status) {
      assert states[i].row.cancelled.Some?;
      assert !Accounted(states[i]);
      hide ClosesUndecided, Perform;
      if forall k :: 0 <= k < i ==> !ClosesUndecidedAt(states, events, k) {
        TerminalApplicationsHaveADecision(states, events, i);
      }
    }
  }

  // ---------- The run of the exception ----------

  /** The five tasks with the first k accepted. */
  function AcceptedTasks(k: nat): (tasks: seq<Task>)
    ensures |tasks| == 5
  {
    seq(5, i requires 0 <= i < 5 =>
      if i < k then FreshTask(CORE_CRITERIA[i], []).(status := TaskStatus.Accepted)
      else FreshTask(CORE_CRITERIA[i], []))
  }

  /** The submitted application once k of its tasks are accepted, at time k + 1. */
  function AcceptedApp(k: nat): App {
    var draft := Start(STUDENT.id, 0);
    App(draft.row.(status := AppStatus.UnderReview, submittedAt := Some(1), version := 2, updatedAt := k + 1),
        draft.snapshots + [Snapshot(2, STUDENT.id, Submission(1, Level.City))], AcceptedTasks(k), [], [], None)
  }

  function Accepting(k: nat): Request {
    RqOfficerDecides(OFFICER, k, Decision.Accept, NO_VERDICT, None, "", [])
  }

  lemma AcceptedSync(k: nat, row: Row, now: Time)
    requires 0 < k <= 5
    ensures SyncOutcome(row, AcceptedTasks(k), true, now) == row.(status := AppStatus.UnderReview, final := NO_DECISION)
  {
    assert k < 5 ==> AcceptedTasks(k)[4].status.Waiting?;
  }

  lemma AcceptStep(k: nat)
    requires k < 5
    ensures Perform(Accepting(k), k + 2, AcceptedApp(k), AcceptedApp(k), AcceptedApp(k)) == Commit(AcceptedApp(k + 1))
  {
    var app, tasks := AcceptedApp(k), AcceptedTasks(k + 1);
    assert app.tasks[k := DecidedTask(app.tasks[k], OFFICER.id, Decision.Accept, NO_VERDICT, None, "", k + 2)] == tasks;
    AcceptedSync(k + 1, app.row, k + 2);
    hide SyncOutcome, DecidedTask;
  }

  lemma {:induction false} AcceptedRun(k: nat) returns (states: seq<App>, events: seq<Event>)
    requires k <= 5
    ensures Run(states, events) && |events| == k + 1 && states[k + 1] == AcceptedApp(k)
  {
    if k == 0 {
      states, events := SubmittedRun();
      assert AcceptedTasks(0) == FreshTasks(CORE_CRITERIA, []);
    } else {
      states, events := AcceptedRun(k - 1);
      AcceptStep(k - 1);
      hide Perform, AcceptedApp;
      var e := Event(Accepting(k - 1), k + 1, k, k);
      ExtendRun(states, events, e);
      states, events := states + [AcceptedApp(k)], events + [e];
    }
  }

  /** Closed by aggregation, and then cancelled and reopened. */
  function AggregatedApp(): App {
    AcceptedApp(5).(row := AcceptedApp(5).row.(status := AppStatus.Completed, updatedAt := 7))
  }

  lemma AggregatingAccepted()
    ensures Perform(RqAggregate(ADMIN), 7, AcceptedApp(5), AcceptedApp(5), AcceptedApp(5)) == Commit(AggregatedApp())
    ensures ClosesUndecided(RqAggregate(ADMIN), AcceptedApp(5), AcceptedApp(5))
  {
  }

  lemma CancellingAggregated()
    ensures Perform(RqCancel(ADMIN, "withdrawn"), 8, AggregatedApp(), AggregatedApp(), AggregatedApp())
            == Commit(CancelledApp())
    ensures Perform(RqReopenCancelled(ADMIN), 9, CancelledApp(), CancelledApp(), CancelledApp())
            == Commit(ReopenedApp())
    ensures ReopenedApp().row.status.Completed? && ReopenedApp().row.cancelled.None? && Decisions(ReopenedApp()) == []
  {
  }

  lemma AggregatedRun() returns (states: seq<App>, events: seq<Event>)
    ensures Run(states, events) && |events| == 7 && states[7] == AggregatedApp()
    ensures events[6] == Event(RqAggregate(ADMIN), 7, 6, 6) && states[6] == AcceptedApp(5)
  {
    states, events := AcceptedRun(5);
    AggregatingAccepted();
    hide Perform, AcceptedApp, AggregatedApp;
    var e := Event(RqAggregate(ADMIN), 7, 6, 6);
    ExtendRun(states, events, e);
    states, events := states + [AggregatedApp()], events + [e];
  }

  /** It does happen: submitted, all five tasks accepted, aggregated, cancelled and reopened, an application is
      closed and not cancelled, and there is no final decision anywhere. */
  lemma AggregationClosesWithoutADecision()
    ensures exists states: seq<App>, events: seq<Event> ::
              && Run(states, events) && |events| == 9 && ClosesUndecidedAt(states, events, 6)
              && events[8].rq.RqReopenCancelled? && states[8].row.cancelled.Some?
              && states[9].row.status.Completed? && states[9].row.cancelled.None? && Decisions(states[9]) == []
  {
    var states, events := ReopenedRun();
    AggregatingAccepted();
    assert FirstRead(states, events, 6) == states[6] == AcceptedApp(5);
    hide *;
    assert Run(states, events);
  }

  function CancelledApp(): App {
    var app := AggregatedApp();
    app.(row := app.row.(cancelled := Some(Stamp(8, ADMIN.id, Some("withdrawn"))), updatedAt := 8))
  }

  function ReopenedApp(): App { AggregatedApp().(row := AggregatedApp().row.(updatedAt := 9)) }

  lemma ReopenedRun() returns (states: seq<App>, events: seq<Event>)
    ensures Run(states, events) && |events| == 9 && events[6] == Event(RqAggregate(ADMIN), 7, 6, 6)
    ensures states[6] == AcceptedApp(5) && events[8].rq.RqReopenCancelled? && states[8].row.cancelled.Some?
    ensures states[9].row.status.Completed? && states[9].row.cancelled.None? && Decisions(states[9]) == []
  {
    states, events := AggregatedRun();
    assert |states| == 8 && CancelledApp().row.cancelled.Some?;
    CancellingAggregated();
    var e, f := Event(RqCancel(ADMIN, "withdrawn"), 8, 7, 7), Event(RqReopenCancelled(ADMIN), 9, 8, 8);
    assert f.rq.RqReopenCancelled?;
    hide *;
    ExtendByStep(states, events, e, CancelledApp());
    states, events := states + [CancelledApp()], events + [e];
    ExtendByStep(states, events, f, ReopenedApp());
    states, events := states + [ReopenedApp()], events + [f];
  }

  /** The history of superseded decisions is only ever appended to. */
  lemma {:induction false} HistoryOnlyGrows(states: seq<App>, events: seq<Event>, i: nat, j: nat)
    requires Run(states, events) && i <= j < |states|
    ensures states[i].finalHistory <= states[j].finalHistory
  {
    if i < j {
      HistoryOnlyGrows(states, events, i, j - 1);
      var e := events[j - 1];
      assert Follows(states, events, j - 1);
      StepKeepsType(e.rq, e.now, states[e.first], states[e.second], states[j - 1]);
    }
  }
}
