/** How far the review of one application has come: one slot per core criterion. */
module ReviewProgress {
  import opened ReviewTypes
  import opened Sequences

  datatype TaskRow = TaskRow(criterion: Criterion, status: TaskStatus, officer: Option<Id>)

  datatype Progress = Progress(reviewed: nat, missingSlots: nat, unexpectedTasks: nat, anomalous: bool)

  predicate Terminal(status: TaskStatus) { status.Accepted? || status.Rejected? }

  function On(c: Criterion): TaskRow -> bool { (t: TaskRow) => t.criterion == c }

  function OffCore(): TaskRow -> bool { (t: TaskRow) => t.criterion !in CORE_CRITERIA }

  function IsTerminal(): TaskRow -> bool { (t: TaskRow) => Terminal(t.status) }

  function TerminalOn(c: Criterion): TaskRow -> bool { (t: TaskRow) => t.criterion == c && Terminal(t.status) }

  /** A sum over the first k of the five core criteria. */
  function Upto(k: nat, f: Criterion -> nat): nat
    requires k <= |CORE_CRITERIA|
  {
    if k == 0 then 0 else Upto(k - 1, f) + f(CORE_CRITERIA[k - 1])
  }

  function OverCore(f: Criterion -> nat): nat {
    f(Criterion.Ethics) + f(Criterion.Academic) + f(Criterion.Physical) + f(Criterion.Volunteer)
      + f(Criterion.Integration)
  }

  lemma OverCoreIsUpto(f: Criterion -> nat)
    ensures OverCore(f) == Upto(5, f)
  {
    assert Upto(5, f) == Upto(3, f) + f(CORE_CRITERIA[3]) + f(CORE_CRITERIA[4]);
  }

  function Missing(tasks: seq<TaskRow>): Criterion -> nat { c => if Count(On(c), tasks) == 0 then 1 else 0 }

  function CountOn(tasks: seq<TaskRow>): Criterion -> nat { c => Count(On(c), tasks) }

  function ExcessOn(tasks: seq<TaskRow>, c: Criterion): nat {
    if Count(On(c), tasks) > 1 then Count(On(c), tasks) - 1 else 0
  }

  function Excess(tasks: seq<TaskRow>): Criterion -> nat { c => ExcessOn(tasks, c) }

  function Reviewed(tasks: seq<TaskRow>): Criterion -> nat {
    c => if Count(On(c), tasks) == 1 && Count(TerminalOn(c), tasks) == 1 then 1 else 0
  }

  /** Slots with no task are missing, tasks beyond the first of a slot or off the slots are unexpected, and a
      slot is reviewed when its only task has a final status. */
  function ProgressOf(tasks: seq<TaskRow>): Progress {
    var missing := OverCore(Missing(tasks));
    var unexpected := Count(OffCore(), tasks) + OverCore(Excess(tasks));
    Progress(OverCore(Reviewed(tasks)), missing, unexpected, missing > 0 || unexpected > 0)
  }

  function Pick(tasks: seq<TaskRow>, c: Criterion): (picked: seq<TaskRow>)
    ensures |picked| == Count(On(c), tasks)
  {
    Filter(On(c), tasks)
  }

  lemma {:induction false} PickSnoc(tasks: seq<TaskRow>, t: TaskRow, c: Criterion)
    ensures Pick(tasks + [t], c) == Pick(tasks, c) + if t.criterion == c then [t] else []
  {
    if tasks != [] {
      assert (tasks + [t])[1..] == tasks[1..] + [t];
      PickSnoc(tasks[1..], t, c);
    }
  }

  ghost predicate IsGroup(byCriterion: map<Criterion, seq<TaskRow>>, tasks: seq<TaskRow>, c: Criterion) {
    && (c in byCriterion <==> c in CORE_CRITERIA && Pick(tasks, c) != [])
    && (c in byCriterion ==> byCriterion[c] == Pick(tasks, c))
  }

  ghost predicate Grouped(byCriterion: map<Criterion, seq<TaskRow>>, tasks: seq<TaskRow>) {
    forall c :: IsGroup(byCriterion, tasks, c)
  }

  lemma GroupsAre(byCriterion: map<Criterion, seq<TaskRow>>, tasks: seq<TaskRow>)
    requires Grouped(byCriterion, tasks)
    ensures forall c :: c in byCriterion <==> c in CORE_CRITERIA && Pick(tasks, c) != []
    ensures forall c :: c in byCriterion ==> byCriterion[c] == Pick(tasks, c)
  {
    forall c
      ensures c in byCriterion <==> c in CORE_CRITERIA && Pick(tasks, c) != []
      ensures c in byCriterion ==> byCriterion[c] == Pick(tasks, c)
    {
      assert IsGroup(byCriterion, tasks, c);
    }
  }

  function WithTask(byCriterion: map<Criterion, seq<TaskRow>>, t: TaskRow): map<Criterion, seq<TaskRow>> {
    if t.criterion !in CORE_CRITERIA then byCriterion
    else byCriterion[t.criterion := (if t.criterion in byCriterion then byCriterion[t.criterion] else []) + [t]]
  }

  lemma GroupNext(byCriterion: map<Criterion, seq<TaskRow>>, tasks: seq<TaskRow>, t: TaskRow, c: Criterion)
    requires IsGroup(byCriterion, tasks, c)
    ensures IsGroup(WithTask(byCriterion, t), tasks + [t], c)
  {
    PickSnoc(tasks, t, c);
    hide Pick;
  }

  lemma GroupedNext(byCriterion: map<Criterion, seq<TaskRow>>, tasks: seq<TaskRow>, t: TaskRow)
    requires Grouped(byCriterion, tasks)
    ensures Grouped(WithTask(byCriterion, t), tasks + [t])
  {
    hide IsGroup, WithTask;
    forall c ensures IsGroup(WithTask(byCriterion, t), tasks + [t], c) {
      GroupNext(byCriterion, tasks, t, c);
    }
  }

  method GroupByCriterion(tasks: seq<TaskRow>) returns (byCriterion: map<Criterion, seq<TaskRow>>, unexpected: nat)
    ensures Grouped(byCriterion, tasks) && unexpected == Count(OffCore(), tasks)
  {
    hide Grouped, Pick;
    byCriterion, unexpected := map[], 0;
    NothingGrouped();
    for i := 0 to |tasks|
      invariant Grouped(byCriterion, tasks[..i]) && unexpected == Count(OffCore(), tasks[..i])
    {
      var task := tasks[i];
      assert tasks[..i + 1] == tasks[..i] + [task];
      CountSnoc(OffCore(), tasks[..i], task);
      GroupedNext(byCriterion, tasks[..i], task);
      if task.criterion !in CORE_CRITERIA {
        unexpected := unexpected + 1;
      } else {
        var rows := if task.criterion in byCriterion then byCriterion[task.criterion] else [];
        byCriterion := byCriterion[task.criterion := rows + [task]];
      }
    }
    assert tasks[..|tasks|] == tasks;
  }

  lemma NothingGrouped()
    ensures Grouped(map[], [])
  {
  }

  /** The excess of the criteria already looked at. */
  function ExcessOutside(left: set<Criterion>, tasks: seq<TaskRow>): nat {
    OverCore(c => if c in left then 0 else ExcessOn(tasks, c))
  }

  lemma NextGroup(byCriterion: map<Criterion, seq<TaskRow>>, tasks: seq<TaskRow>, left: set<Criterion>, c: Criterion)
    requires Grouped(byCriterion, tasks) && c in left && left <= byCriterion.Keys
    ensures ExcessOutside(left - {c}, tasks)
            == ExcessOutside(left, tasks) + if |byCriterion[c]| > 1 then |byCriterion[c]| - 1 else 0
  {
    hide Pick, Grouped;
    GroupsAre(byCriterion, tasks);
    assert |byCriterion[c]| == |Pick(tasks, c)| == Count(On(c), tasks);
  }

  lemma GroupsAtTheEnds(byCriterion: map<Criterion, seq<TaskRow>>, tasks: seq<TaskRow>)
    requires Grouped(byCriterion, tasks)
    ensures ExcessOutside(byCriterion.Keys, tasks) == 0
    ensures ExcessOutside({}, tasks) == OverCore(Excess(tasks))
  {
    hide Grouped;
    GroupsAre(byCriterion, tasks);
  }

  method CountExcess(tasks: seq<TaskRow>, byCriterion: map<Criterion, seq<TaskRow>>) returns (excess: nat)
    requires Grouped(byCriterion, tasks)
    ensures excess == OverCore(Excess(tasks))
  {
    hide Grouped, ExcessOutside, OverCore;
    excess := 0;
    GroupsAtTheEnds(byCriterion, tasks);
    var left := byCriterion.Keys;
    while left != {}
      invariant left <= byCriterion.Keys && excess == ExcessOutside(left, tasks)
      decreases left
    {
      var c :| c in left;
      NextGroup(byCriterion, tasks, left, c);
      left := left - {c};
      excess := excess + if |byCriterion[c]| > 1 then |byCriterion[c]| - 1 else 0;
    }
  }

  lemma SlotOf(byCriterion: map<Criterion, seq<TaskRow>>, tasks: seq<TaskRow>, c: Criterion)
    requires Grouped(byCriterion, tasks) && c in CORE_CRITERIA
    ensures var rows := if c in byCriterion then byCriterion[c] else [];
            && Missing(tasks)(c) == (if |rows| == 0 then 1 else 0)
            && Reviewed(tasks)(c) == (if |rows| == 1 && Terminal(rows[0].status) then 1 else 0)
  {
    hide Grouped;
    GroupsAre(byCriterion, tasks);
    var rows := Pick(tasks, c);
    CountFiltered(IsTerminal(), On(c), tasks);
    CountSame(Both(On(c), IsTerminal()), TerminalOn(c), tasks);
    assert |rows| == 1 ==> rows[1..] == [];
  }

  method CountSlots(tasks: seq<TaskRow>, byCriterion: map<Criterion, seq<TaskRow>>)
    returns (reviewed: nat, missing: nat)
    requires Grouped(byCriterion, tasks)
    ensures reviewed == OverCore(Reviewed(tasks)) && missing == OverCore(Missing(tasks))
  {
    hide Grouped, Missing, Reviewed, OverCore;
    reviewed, missing := 0, 0;
    OverCoreIsUpto(Reviewed(tasks));
    OverCoreIsUpto(Missing(tasks));
    for k := 0 to |CORE_CRITERIA|
      invariant reviewed == Upto(k, Reviewed(tasks)) && missing == Upto(k, Missing(tasks))
    {
      var c := CORE_CRITERIA[k];
      SlotOf(byCriterion, tasks, c);
      var rows := if c in byCriterion then byCriterion[c] else [];
      if |rows| == 0 {
        missing := missing + 1;
      }
      if |rows| == 1 && Terminal(rows[0].status) {
        reviewed := reviewed + 1;
      }
    }
  }

  /** Groups the tasks by criterion in a map, then goes through the groups and through the slots. */
  method Compute(tasks: seq<TaskRow>) returns (progress: Progress)
    ensures progress == ProgressOf(tasks)
  {
    var byCriterion, unexpected := GroupByCriterion(tasks);
    var excess := CountExcess(tasks, byCriterion);
    unexpected := unexpected + excess;
    var reviewed, missing := CountSlots(tasks, byCriterion);
    progress := Progress(reviewed, missing, unexpected, missing > 0 || unexpected > 0);
  }

  // ---------- What the figures mean ----------

  lemma {:induction false} EveryTaskIsSomewhere(tasks: seq<TaskRow>)
    ensures |tasks| == Count(OffCore(), tasks) + OverCore(CountOn(tasks))
  {
    if tasks != [] {
      EveryTaskIsSomewhere(tasks[1..]);
    }
  }

  /** Every task is the first of its slot or unexpected. */
  lemma TasksFillSlotsOrAreUnexpected(tasks: seq<TaskRow>)
    ensures var p := ProgressOf(tasks);
            |tasks| + p.missingSlots == 5 + p.unexpectedTasks && p.missingSlots + p.reviewed <= 5
  {
    hide Count;
    EveryTaskIsSomewhere(tasks);
    assert forall c :: CountOn(tasks)(c) + Missing(tasks)(c) == 1 + Excess(tasks)(c);
    assert forall c :: Missing(tasks)(c) + Reviewed(tasks)(c) <= 1;
    OverCoreSums(CountOn(tasks), Missing(tasks), Excess(tasks));
    OverCoreFits(Missing(tasks), Reviewed(tasks));
    hide OverCore, CountOn, Missing, Excess, Reviewed;
  }

  lemma OverCoreSums(f: Criterion -> nat, g: Criterion -> nat, h: Criterion -> nat)
    requires forall c :: f(c) + g(c) == 1 + h(c)
    ensures OverCore(f) + OverCore(g) == 5 + OverCore(h)
  {
  }

  lemma OverCoreFits(f: Criterion -> nat, g: Criterion -> nat)
    requires forall c :: f(c) + g(c) <= 1
    ensures OverCore(f) + OverCore(g) <= 5
  {
  }

  function CriterionOf(): TaskRow -> Criterion { (t: TaskRow) => t.criterion }

  lemma {:induction false} CountIsMultiplicity(tasks: seq<TaskRow>, c: Criterion)
    ensures Count(On(c), tasks) == multiset(Map(CriterionOf(), tasks))[c]
  {
    var criteria := Map(CriterionOf(), tasks);
    if tasks != [] {
      CountIsMultiplicity(tasks[1..], c);
      assert criteria == [tasks[0].criterion] + Map(CriterionOf(), tasks[1..]);
    }
  }

  lemma OneEach(tasks: seq<TaskRow>)
    ensures !ProgressOf(tasks).anomalous
            <==> |tasks| == 5 && forall k :: 0 <= k < 5 ==> CountOn(tasks)(CORE_CRITERIA[k]) == 1
  {
    hide Count, Reviewed;
    EveryTaskIsSomewhere(tasks);
    TasksFillSlotsOrAreUnexpected(tasks);
    assert (forall k :: 0 <= k < 5 ==> CountOn(tasks)(CORE_CRITERIA[k]) == 1) ==>
      forall c :: c in CORE_CRITERIA ==> CountOn(tasks)(c) == 1;
  }

  lemma CoreMultiplicity(c: Criterion)
    ensures multiset(CORE_CRITERIA)[c] == if c in CORE_CRITERIA then 1 else 0
  {
  }

  /** An application is anomalous unless it has exactly one task for each core criterion and no other. */
  lemma AnomalousIff(tasks: seq<TaskRow>)
    ensures ProgressOf(tasks).anomalous <==> multiset(Map(CriterionOf(), tasks)) != multiset(CORE_CRITERIA)
  {
    hide Count, ProgressOf;
    var criteria := multiset(Map(CriterionOf(), tasks));
    assert |criteria| == |tasks|;
    OneEach(tasks);
    forall c
      ensures CountOn(tasks)(c) == criteria[c] && multiset(CORE_CRITERIA)[c] == if c in CORE_CRITERIA then 1 else 0
    {
      CountIsMultiplicity(tasks, c);
      CoreMultiplicity(c);
    }
    if !ProgressOf(tasks).anomalous {
      assert multiset(CORE_CRITERIA) <= criteria;
      SubmultisetOfSameSize(multiset(CORE_CRITERIA), criteria);
    }
  }

  // ---------- What the slots hold ----------

  /** Only one task is on the criterion, and it is accepted or rejected. */
  predicate SlotReviewed(tasks: seq<TaskRow>, c: Criterion) {
    exists i :: 0 <= i < |tasks| && tasks[i].criterion == c
                && tasks[i].status in {TaskStatus.Accepted, TaskStatus.Rejected}
                && forall j :: 0 <= j < |tasks| && j != i ==> tasks[j].criterion != c
  }

  predicate SlotMissing(tasks: seq<TaskRow>, c: Criterion) {
    forall i :: 0 <= i < |tasks| ==> tasks[i].criterion != c
  }

  lemma SlotMissingIff(tasks: seq<TaskRow>, c: Criterion)
    ensures Missing(tasks)(c) == if SlotMissing(tasks, c) then 1 else 0
  {
    CountFinds(On(c), tasks);
    hide Count;
    if !SlotMissing(tasks, c) {
      var i :| 0 <= i < |tasks| && tasks[i].criterion == c;
      assert tasks[i] in tasks && On(c)(tasks[i]);
    }
  }

  lemma OnlyTaskIsReviewed(tasks: seq<TaskRow>, c: Criterion)
    requires Reviewed(tasks)(c) == 1
    ensures SlotReviewed(tasks, c)
  {
    CountFindsTwo(On(c), tasks);
    CountFinds(TerminalOn(c), tasks);
    hide Count;
    var t :| t in tasks && TerminalOn(c)(t);
    var i :| 0 <= i < |tasks| && tasks[i] == t;
    forall j | 0 <= j < |tasks| && j != i ensures tasks[j].criterion != c {
      assert On(c)(tasks[i]) && !(On(c)(tasks[j]) && j < i) && !(On(c)(tasks[j]) && i < j);
    }
  }

  lemma ReviewedTaskCounts(tasks: seq<TaskRow>, c: Criterion)
    requires SlotReviewed(tasks, c)
    ensures Reviewed(tasks)(c) == 1
  {
    CountFindsTwo(On(c), tasks);
    CountFinds(TerminalOn(c), tasks);
    CountNarrowed(TerminalOn(c), On(c), tasks);
    hide Count;
    var i :| 0 <= i < |tasks| && tasks[i].criterion == c
             && tasks[i].status in {TaskStatus.Accepted, TaskStatus.Rejected}
             && forall j :: 0 <= j < |tasks| && j != i ==> tasks[j].criterion != c;
    assert tasks[i] in tasks && TerminalOn(c)(tasks[i]);
  }

  lemma SlotReviewedIff(tasks: seq<TaskRow>, c: Criterion)
    ensures Reviewed(tasks)(c) == if SlotReviewed(tasks, c) then 1 else 0
  {
    if Reviewed(tasks)(c) == 1 {
      OnlyTaskIsReviewed(tasks, c);
    }
    if SlotReviewed(tasks, c) {
      ReviewedTaskCounts(tasks, c);
    }
  }

  function Numeral(p: Criterion -> bool): Criterion -> nat { c => if p(c) then 1 else 0 }

  lemma {:induction false} CountUpto(k: nat, p: Criterion -> bool)
    requires k <= |CORE_CRITERIA|
    ensures Count(p, CORE_CRITERIA[..k]) == Upto(k, Numeral(p))
  {
    if k > 0 {
      CountUpto(k - 1, p);
      assert CORE_CRITERIA[..k] == CORE_CRITERIA[..k - 1] + [CORE_CRITERIA[k - 1]];
      CountSnoc(p, CORE_CRITERIA[..k - 1], CORE_CRITERIA[k - 1]);
    }
  }

  lemma CoreSize(p: Criterion -> bool)
    ensures |Those(p, CORE_CRITERIA)| == OverCore(Numeral(p))
  {
    hide Count, Upto, OverCore, Those;
    assert Distinct(CORE_CRITERIA);
    DistinctCount(p, CORE_CRITERIA);
    CountUpto(5, p);
    assert CORE_CRITERIA[..5] == CORE_CRITERIA;
    OverCoreIsUpto(Numeral(p));
  }

  lemma OverCoreSame(f: Criterion -> nat, g: Criterion -> nat)
    requires forall c :: f(c) == g(c)
    ensures OverCore(f) == OverCore(g)
  {
  }

  /** A slot is missing when no task is on it, and reviewed when its only task has a decision. */
  lemma ProgressMeans(tasks: seq<TaskRow>)
    ensures ProgressOf(tasks).reviewed == |Those(c => SlotReviewed(tasks, c), CORE_CRITERIA)|
    ensures ProgressOf(tasks).missingSlots == |Those(c => SlotMissing(tasks, c), CORE_CRITERIA)|
  {
    var reviewed, missing := c => SlotReviewed(tasks, c), c => SlotMissing(tasks, c);
    CoreSize(reviewed);
    CoreSize(missing);
    forall c ensures Reviewed(tasks)(c) == Numeral(reviewed)(c) && Missing(tasks)(c) == Numeral(missing)(c) {
      SlotReviewedIff(tasks, c);
      SlotMissingIff(tasks, c);
    }
    OverCoreSame(Reviewed(tasks), Numeral(reviewed));
    OverCoreSame(Missing(tasks), Numeral(missing));
    hide OverCore, Reviewed, Missing, SlotReviewed, SlotMissing, Count, Excess, Numeral;
    assert Those(reviewed, CORE_CRITERIA) == Those(c => SlotReviewed(tasks, c), CORE_CRITERIA);
    assert Those(missing, CORE_CRITERIA) == Those(c => SlotMissing(tasks, c), CORE_CRITERIA);
  }

  /** One task for each core criterion and no other, all of them accepted or rejected. */
  predicate FullyReviewed(tasks: seq<TaskRow>) {
    && multiset(Map(CriterionOf(), tasks))
       == multiset{Criterion.Ethics, Criterion.Academic, Criterion.Physical, Criterion.Volunteer,
                   Criterion.Integration}
    && forall i :: 0 <= i < |tasks| ==> tasks[i].status in {TaskStatus.Accepted, TaskStatus.Rejected}
  }

  lemma AllSlotsReviewedIff(tasks: seq<TaskRow>)
    ensures ProgressOf(tasks).reviewed == 5 <==> forall c :: c in CORE_CRITERIA ==> SlotReviewed(tasks, c)
  {
    hide SlotReviewed, Count;
    assert ProgressOf(tasks).reviewed == OverCore(Reviewed(tasks));
    forall c ensures Reviewed(tasks)(c) == if SlotReviewed(tasks, c) then 1 else 0 {
      SlotReviewedIff(tasks, c);
    }
    hide ProgressOf, Reviewed;
    assert forall c :: c in CORE_CRITERIA <==>
      c.Ethics? || c.Academic? || c.Physical? || c.Volunteer? || c.Integration?;
  }

  /** All five slots are reviewed and nothing is anomalous exactly if the application is fully reviewed. */
  lemma FullyReviewedIff(tasks: seq<TaskRow>)
    ensures ProgressOf(tasks).reviewed == 5 && !ProgressOf(tasks).anomalous <==> FullyReviewed(tasks)
  {
    AnomalousIff(tasks);
    AllSlotsReviewedIff(tasks);
    hide ProgressOf;
    var criteria := Map(CriterionOf(), tasks);
    assert multiset(CORE_CRITERIA) == multiset{Criterion.Ethics, Criterion.Academic, Criterion.Physical,
                                               Criterion.Volunteer, Criterion.Integration};
    if multiset(criteria) == multiset(CORE_CRITERIA) {
      assert Distinct(CORE_CRITERIA);
      DistinctAnyOrder(CORE_CRITERIA, criteria);
      SlotsOfDistinct(tasks);
    }
  }

  lemma SlotsOfDistinct(tasks: seq<TaskRow>)
    requires Distinct(Map(CriterionOf(), tasks)) && multiset(Map(CriterionOf(), tasks)) == multiset(CORE_CRITERIA)
    ensures (forall c :: c in CORE_CRITERIA ==> SlotReviewed(tasks, c))
            <==> forall i :: 0 <= i < |tasks| ==> tasks[i].status in {TaskStatus.Accepted, TaskStatus.Rejected}
  {
    var criteria := Map(CriterionOf(), tasks);
    forall i | 0 <= i < |tasks|
      ensures tasks[i].criterion in CORE_CRITERIA
      ensures forall j :: 0 <= j < |tasks| && j != i ==> tasks[j].criterion != tasks[i].criterion
    {
      assert criteria[i] in multiset(criteria);
      assert criteria[i] in multiset(CORE_CRITERIA);
      assert forall j :: 0 <= j < |tasks| ==> criteria[j] == tasks[j].criterion;
    }
    forall c | c in CORE_CRITERIA ensures exists i :: 0 <= i < |tasks| && tasks[i].criterion == c {
      assert c in multiset(CORE_CRITERIA);
      assert c in multiset(criteria);
      var i :| 0 <= i < |criteria| && criteria[i] == c;
    }
  }
}
