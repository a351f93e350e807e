/** The summary's progress over the runs of the application aggregate. */
module SubmittedProgress {
  import opened ReviewTypes
  import opened Aggregate
  import opened AggregateRuns
  import opened RepairRuns
  import opened Sequences
  import RP = ReviewProgress

  function TaskRows(tasks: seq<Task>): (rows: seq<RP.TaskRow>)
    ensures |rows| == |tasks|
    ensures forall i :: 0 <= i < |tasks| ==> rows[i] == RP.TaskRow(tasks[i].criterion, tasks[i].status, None)
  {
    seq(|tasks|, i requires 0 <= i < |tasks| => RP.TaskRow(tasks[i].criterion, tasks[i].status, None))
  }

  /** What the summary would flag. */
  predicate Anomalous(app: App) { RP.ProgressOf(TaskRows(app.tasks)).anomalous }

  lemma AnomalousByCriteria(app: App)
    ensures Anomalous(app) <==> multiset(Criteria(app.tasks)) != multiset(CORE_CRITERIA)
  {
    hide RP.ProgressOf;
    assert Map(RP.CriterionOf(), TaskRows(app.tasks)) == Criteria(app.tasks);
    RP.AnomalousIff(TaskRows(app.tasks));
  }

  /** An application first submitted as individual City is never reported as anomalous, whatever requests
      follow in whatever interleaving, unless the repair of missing tasks takes part. */
  lemma CitySubmissionsAreNeverAnomalous(states: seq<App>, events: seq<Event>, i: nat, j: nat)
    requires Run(states, events) && i < j < |states| && NoRepair(states, events, 0, j)
    requires states[i].row.submittedAt.None? && states[i + 1].row.submittedAt.Some?
    requires IndividualCity(states[i + 1].row)
    ensures !Anomalous(states[j])
  {
    hide Anomalous, Run, NoRepair, IndividualCity;
    CityApplicationsHaveTheCoreTasks(states, events, i, j);
    AnomalousByCriteria(states[j]);
  }

  lemma {:induction false} CoreOrOff(criteria: seq<Criterion>)
    requires HasCore(criteria)
    ensures multiset(criteria) == multiset(CORE_CRITERIA) <==> Distinct(criteria) && !OffCore(criteria)
  {
    if multiset(criteria) == multiset(CORE_CRITERIA) {
      DistinctAnyOrder(CORE_CRITERIA, criteria);
      forall c | c in criteria ensures c in CORE_CRITERIA {
        assert c in multiset(criteria);
      }
    } else if Distinct(criteria) && !OffCore(criteria) {
      DistinctSameElements(criteria, CORE_CRITERIA);
    }
  }

  /** With repairs taking part, a submitted application is reported as anomalous exactly if a first submission
      overlapped a repair, or some step that had read it as other than individual City created a task for
      priority or for the collective. */
  lemma AnomalousIffOverlappedOrWidened(states: seq<App>, events: seq<Event>, j: nat)
    requires Run(states, events) && j < |states| && states[j].row.submittedAt.Some?
    ensures Anomalous(states[j])
            <==> exists i :: 0 <= i < j && (OverlapAt(states, events, i) || WidensAt(states, events, i))
  {
    hide Anomalous, OverlapAt, WidensAt, Run, Distinct, OffCore, HasCore;
    SubmittedHasTasks(states, events, j);
    TasksHaveCore(states, events, j);
    AnomalousByCriteria(states[j]);
    CoreOrOff(Criteria(states[j].tasks));
    TasksAreDistinctIff(states, events, j);
    OffCoreIff(states, events, j);
  }
}
