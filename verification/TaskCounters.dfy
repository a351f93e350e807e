/** The City summary's counters per criterion and per officer. */
module TaskCounters {
  import opened ReviewTypes
  import opened Sequences
  import opened ReviewProgress

  datatype CriterionTotals = CriterionTotals(
    totalTasks: nat, pending: nat, inReview: nat, supplementRequired: nat, resolutionNeeded: nat, pass: nat, fail: nat)

  const NO_TASKS := CriterionTotals(0, 0, 0, 0, 0, 0, 0)

  datatype OfficerTotals = OfficerTotals(
    assignedActive: nat, pending: nat, completed: nat, supplementRequired: nat, resolutionNeeded: nat)

  const NO_WORK := OfficerTotals(0, 0, 0, 0, 0)

  // ---------- What each figure counts ----------

  function OnWith(c: Criterion, status: TaskStatus): TaskRow -> bool {
    (t: TaskRow) => t.criterion == c && t.status == status
  }

  function CriterionCounts(c: Criterion, tasks: seq<TaskRow>): CriterionTotals {
    CriterionTotals(
      Count(On(c), tasks), Count(OnWith(c, TaskStatus.Waiting), tasks), Count(OnWith(c, TaskStatus.Reviewing), tasks),
      Count(OnWith(c, TaskStatus.SupplementRequired), tasks), Count(OnWith(c, TaskStatus.ResolutionNeeded), tasks),
      Count(OnWith(c, TaskStatus.Accepted), tasks), Count(OnWith(c, TaskStatus.Rejected), tasks))
  }

  /** Tasks of the core criteria that an officer holds. */
  function Held(id: Id, p: TaskStatus -> bool): TaskRow -> bool {
    (t: TaskRow) => id != "" && t.officer == Some(id) && t.criterion in CORE_CRITERIA && p(t.status)
  }

  function AnyStatus(): TaskStatus -> bool { (s: TaskStatus) => true }

  function OpenTask(): TaskStatus -> bool { (s: TaskStatus) => !Terminal(s) }

  function Untouched(): TaskStatus -> bool { (s: TaskStatus) => s.Waiting? || s.Reviewing? }

  function ClosedTask(): TaskStatus -> bool { (s: TaskStatus) => Terminal(s) }

  function Supplements(): TaskStatus -> bool { (s: TaskStatus) => s.SupplementRequired? }

  function Delayed(): TaskStatus -> bool { (s: TaskStatus) => s.SupplementRequired? || s.ResolutionNeeded? }

  function Escalated(): TaskStatus -> bool { (s: TaskStatus) => s.ResolutionNeeded? }

  function OfficerCounts(id: Id, tasks: seq<TaskRow>): OfficerTotals {
    OfficerTotals(
      Count(Held(id, OpenTask()), tasks), Count(Held(id, Untouched()), tasks), Count(Held(id, ClosedTask()), tasks),
      Count(Held(id, Supplements()), tasks), Count(Held(id, Escalated()), tasks))
  }

  ghost predicate DescribesCriteria(criteria: seq<CriterionTotals>, tasks: seq<TaskRow>) {
    && |criteria| == |CORE_CRITERIA|
    && forall k :: 0 <= k < |criteria| ==> criteria[k] == CriterionCounts(CORE_CRITERIA[k], tasks)
  }

  ghost predicate DescribesOfficers(officers: map<Id, OfficerTotals>, listed: seq<Id>, tasks: seq<TaskRow>) {
    && (forall id :: id in officers <==> id in listed)
    && forall id :: id in officers ==> officers[id] == OfficerCounts(id, tasks)
  }

  // ---------- Counting ----------

  function One(b: bool): nat { if b then 1 else 0 }

  function AddStatus(n: CriterionTotals, status: TaskStatus): CriterionTotals {
    match status
    case Waiting => n.(pending := n.pending + 1)
    case Reviewing => n.(inReview := n.inReview + 1)
    case SupplementRequired => n.(supplementRequired := n.supplementRequired + 1)
    case ResolutionNeeded => n.(resolutionNeeded := n.resolutionNeeded + 1)
    case Accepted => n.(pass := n.pass + 1)
    case Rejected => n.(fail := n.fail + 1)
  }

  lemma CriterionNext(c: Criterion, tasks: seq<TaskRow>, t: TaskRow)
    ensures var n := CriterionCounts(c, tasks);
            CriterionCounts(c, tasks + [t])
            == if t.criterion == c then AddStatus(n.(totalTasks := n.totalTasks + 1), t.status) else n
  {
    hide Count;
    CountSnoc(On(c), tasks, t);
    CountSnoc(OnWith(c, TaskStatus.Waiting), tasks, t);
    CountSnoc(OnWith(c, TaskStatus.Reviewing), tasks, t);
    CountSnoc(OnWith(c, TaskStatus.SupplementRequired), tasks, t);
    CountSnoc(OnWith(c, TaskStatus.ResolutionNeeded), tasks, t);
    CountSnoc(OnWith(c, TaskStatus.Accepted), tasks, t);
    CountSnoc(OnWith(c, TaskStatus.Rejected), tasks, t);
  }

  /** An officer's totals after one more task of that officer. */
  function AddTask(n: OfficerTotals, status: TaskStatus): OfficerTotals {
    OfficerTotals(
      n.assignedActive + One(!Terminal(status)), n.pending + One(status.Waiting? || status.Reviewing?),
      n.completed + One(Terminal(status)), n.supplementRequired + One(status.SupplementRequired?),
      n.resolutionNeeded + One(status.ResolutionNeeded?))
  }

  lemma OfficerNext(id: Id, tasks: seq<TaskRow>, t: TaskRow)
    ensures var n := OfficerCounts(id, tasks);
            OfficerCounts(id, tasks + [t]) == if Held(id, AnyStatus())(t) then AddTask(n, t.status) else n
  {
    hide Count;
    CountSnoc(Held(id, OpenTask()), tasks, t);
    CountSnoc(Held(id, Untouched()), tasks, t);
    CountSnoc(Held(id, ClosedTask()), tasks, t);
    CountSnoc(Held(id, Supplements()), tasks, t);
    CountSnoc(Held(id, Escalated()), tasks, t);
  }

  /** `criteria.find`: the position of a criterion among the core ones, or their number. */
  method FindCriterion(c: Criterion) returns (k: nat)
    ensures k <= |CORE_CRITERIA| && (k < |CORE_CRITERIA| <==> c in CORE_CRITERIA)
    ensures k < |CORE_CRITERIA| ==> CORE_CRITERIA[k] == c
  {
    k := 0;
    while k < |CORE_CRITERIA| && CORE_CRITERIA[k] != c
      invariant k <= |CORE_CRITERIA| && c !in CORE_CRITERIA[..k]
    {
      k := k + 1;
    }
  }

  lemma OnlyItsCriterion(k: nat, j: nat)
    requires k < |CORE_CRITERIA| && j < |CORE_CRITERIA| && CORE_CRITERIA[k] == CORE_CRITERIA[j]
    ensures k == j
  {
  }

  /** The tasks of one application are added to the counters. A task off the core criteria counts nowhere, and
      one of an officer who is not listed counts for its criterion alone. */
  method CountTasks(before: seq<CriterionTotals>, work: map<Id, OfficerTotals>, tasks: seq<TaskRow>,
                    ghost earlier: seq<TaskRow>, ghost listed: seq<Id>)
    returns (criteria: seq<CriterionTotals>, officers: map<Id, OfficerTotals>)
    requires DescribesCriteria(before, earlier) && DescribesOfficers(work, listed, earlier)
    ensures DescribesCriteria(criteria, earlier + tasks) && DescribesOfficers(officers, listed, earlier + tasks)
  {
    hide CriterionCounts, OfficerCounts;
    criteria, officers := before, work;
    assert earlier + tasks[..0] == earlier;
    for i := 0 to |tasks|
      invariant DescribesCriteria(criteria, earlier + tasks[..i])
                && DescribesOfficers(officers, listed, earlier + tasks[..i])
    {
      var t := tasks[i];
      ghost var seen := earlier + tasks[..i];
      assert earlier + tasks[..i + 1] == seen + [t];
      ghost var was, held := criteria, officers;
      var k := FindCriterion(t.criterion);
      if k < |CORE_CRITERIA| {
        var n := criteria[k];
        criteria := criteria[k := AddStatus(n.(totalTasks := n.totalTasks + 1), t.status)];
        if t.officer.Some? && t.officer.value != "" && t.officer.value in officers {
          officers := officers[t.officer.value := AddTask(officers[t.officer.value], t.status)];
        }
      }
      CriteriaNext(was, seen, t, k, criteria);
      OfficersNext(held, listed, seen, t, officers);
    }
    assert tasks[..|tasks|] == tasks;
  }

  lemma CriteriaNext(criteria: seq<CriterionTotals>, tasks: seq<TaskRow>, t: TaskRow, k: nat,
                     after: seq<CriterionTotals>)
    requires DescribesCriteria(criteria, tasks)
    requires k < |CORE_CRITERIA| <==> t.criterion in CORE_CRITERIA
    requires k < |CORE_CRITERIA| ==> CORE_CRITERIA[k] == t.criterion
    requires after == if k < |CORE_CRITERIA|
                      then criteria[k := AddStatus(criteria[k].(totalTasks := criteria[k].totalTasks + 1), t.status)]
                      else criteria
    ensures DescribesCriteria(after, tasks + [t])
  {
    hide CriterionCounts, AddStatus;
    forall j | 0 <= j < |CORE_CRITERIA| ensures after[j] == CriterionCounts(CORE_CRITERIA[j], tasks + [t]) {
      CriterionNext(CORE_CRITERIA[j], tasks, t);
      if k < |CORE_CRITERIA| && CORE_CRITERIA[j] == t.criterion {
        OnlyItsCriterion(k, j);
      }
    }
  }

  lemma OfficersNext(officers: map<Id, OfficerTotals>, listed: seq<Id>, tasks: seq<TaskRow>, t: TaskRow,
                     after: map<Id, OfficerTotals>)
    requires DescribesOfficers(officers, listed, tasks)
    requires after == if t.criterion in CORE_CRITERIA && t.officer.Some? && t.officer.value != ""
                         && t.officer.value in officers
                      then officers[t.officer.value := AddTask(officers[t.officer.value], t.status)] else officers
    ensures DescribesOfficers(after, listed, tasks + [t])
  {
    hide OfficerCounts, AddTask;
    forall id | id in after ensures after[id] == OfficerCounts(id, tasks + [t]) {
      OfficerNext(id, tasks, t);
    }
  }

  /** The core criteria start with an entry of zeros. */
  method ListCriteria() returns (criteria: seq<CriterionTotals>)
    ensures DescribesCriteria(criteria, [])
  {
    criteria := seq(|CORE_CRITERIA|, _ => NO_TASKS);
  }

  /** The listed officers start with an entry of zeros. */
  method ListOfficers(listed: seq<Id>) returns (officers: map<Id, OfficerTotals>)
    ensures DescribesOfficers(officers, listed, [])
  {
    officers := map[];
    for i := 0 to |listed|
      invariant DescribesOfficers(officers, listed[..i], [])
    {
      assert listed[..i + 1] == listed[..i] + [listed[i]];
      officers := officers[listed[i] := NO_WORK];
    }
    assert listed[..|listed|] == listed;
  }

  // ---------- What adds up ----------

  lemma {:induction false} HeldParts(id: Id, p: TaskStatus -> bool, q: TaskStatus -> bool, whole: TaskStatus -> bool,
                                     tasks: seq<TaskRow>)
    requires forall s :: One(p(s)) + One(q(s)) == One(whole(s))
    ensures Count(Held(id, p), tasks) + Count(Held(id, q), tasks) == Count(Held(id, whole), tasks)
  {
    if tasks != [] {
      HeldParts(id, p, q, whole, tasks[1..]);
      assert One(p(tasks[0].status)) + One(q(tasks[0].status)) == One(whole(tasks[0].status));
    }
  }

  /** A criterion's six figures partition its tasks. */
  lemma {:induction false} CriterionFiguresAddUp(c: Criterion, tasks: seq<TaskRow>)
    ensures var n := CriterionCounts(c, tasks);
            n.pending + n.inReview + n.supplementRequired + n.resolutionNeeded + n.pass + n.fail == n.totalTasks
  {
    if tasks != [] {
      CriterionFiguresAddUp(c, tasks[..|tasks| - 1]);
      CriterionNext(c, tasks[..|tasks| - 1], tasks[|tasks| - 1]);
      assert tasks == tasks[..|tasks| - 1] + [tasks[|tasks| - 1]];
    }
  }

  /** An officer's open tasks are the pending, the supplementing and the escalated ones, and with the completed
      ones they are the officer's tasks of the core criteria. */
  lemma OfficerFiguresAddUp(id: Id, tasks: seq<TaskRow>)
    ensures var n := OfficerCounts(id, tasks);
            && n.assignedActive == n.pending + n.supplementRequired + n.resolutionNeeded
            && n.assignedActive + n.completed == Count(Held(id, AnyStatus()), tasks)
  {
    hide Count, Held;
    HeldParts(id, Supplements(), Escalated(), Delayed(), tasks);
    assert forall s: TaskStatus :: One(Untouched()(s)) + One(Delayed()(s)) == One(OpenTask()(s));
    HeldParts(id, Untouched(), Delayed(), OpenTask(), tasks);
    HeldParts(id, OpenTask(), ClosedTask(), AnyStatus(), tasks);
  }

  /** The five criteria's totals are all tasks but those off the core criteria. */
  lemma CriteriaAddUp(criteria: seq<CriterionTotals>, tasks: seq<TaskRow>)
    requires DescribesCriteria(criteria, tasks)
    ensures criteria[0].totalTasks + criteria[1].totalTasks + criteria[2].totalTasks + criteria[3].totalTasks
            + criteria[4].totalTasks + Count(OffCore(), tasks) == |tasks|
  {
    hide Count;
    EveryTaskIsSomewhere(tasks);
  }
}
