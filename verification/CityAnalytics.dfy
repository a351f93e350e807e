/** The City summary: one pass of counters, and the lists its figures lead to. */
module CityAnalytics {
  import opened ReviewTypes
  import opened Text
  import opened Sequences
  import opened ReviewProgress
  import opened QueryFilters
  import opened TaskCounters

  /** `byProgress[n]` counts submitted applications with n reviewed slots. */
  datatype Counters = Counters(
    notSubmitted: nat, submitted: nat, inReview: nat, supplementRequired: nat, resolutionBlocked: nat,
    reviewComplete: nat,
    byProgress: seq<nat>, unexpectedTasks: nat, missingSlots: nat,
    finalized: nat, passed: nat, failed: nat, notFinalized: nat,
    supplementTasks: nat, openCases: nat, resolvedCases: nat)

  const NO_COUNTS := Counters(0, 0, 0, 0, 0, 0, [0, 0, 0, 0, 0, 0], 0, 0, 0, 0, 0, 0, 0, 0, 0)

  datatype SchoolTotals = SchoolTotals(
    submitted: nat, inReview: nat, supplementRequired: nat, reviewComplete: nat, finalPassed: nat, finalFailed: nat)

  const NO_TOTALS := SchoolTotals(0, 0, 0, 0, 0, 0)

  // ---------- What each figure counts ----------

  function Submitted(): Row -> bool { (r: Row) => IsSubmitted(r) }

  function NotSubmitted(): Row -> bool { (r: Row) => !IsSubmitted(r) }

  function InReview(): Row -> bool { (r: Row) => IsInReview(r) }

  function SupplementRequired(): Row -> bool { (r: Row) => IsSupplementRequired(r) }

  function ResolutionBlocked(): Row -> bool { (r: Row) => IsResolutionBlocked(r) }

  function Complete(): Row -> bool {
    (r: Row) => IsSubmitted(r) && ProgressOf(r.tasks).reviewed == 5 && !ProgressOf(r.tasks).anomalous
  }

  function AtProgress(n: nat): Row -> bool { (r: Row) => IsSubmitted(r) && ProgressOf(r.tasks).reviewed == n }

  function Result(status: FinalStatus): Row -> bool {
    (r: Row) => IsSubmitted(r) && CityResult(r.finalStatus, r.finalLevel) == status
  }

  function Finalized(): Row -> bool { (r: Row) => IsSubmitted(r) && !r.finalStatus.Pending? }

  function Unexpected(): Row -> nat { (r: Row) => if IsSubmitted(r) then ProgressOf(r.tasks).unexpectedTasks else 0 }

  function MissingIn(): Row -> nat { (r: Row) => if IsSubmitted(r) then ProgressOf(r.tasks).missingSlots else 0 }

  function AsksSupplement(): TaskRow -> bool { (t: TaskRow) => t.status.SupplementRequired? }

  function SupplementTasks(): Row -> nat { (r: Row) => Count(AsksSupplement(), r.tasks) }

  function IsOpen(): ResolutionStatus -> bool { (s: ResolutionStatus) => OpenCase(s) }

  function IsResolved(): ResolutionStatus -> bool { (s: ResolutionStatus) => s.Resolved? || s.Rejected? }

  function OpenCases(): Row -> nat { (r: Row) => Count(IsOpen(), r.cases) }

  function ResolvedCases(): Row -> nat { (r: Row) => Count(IsResolved(), r.cases) }

  function At(school: Id, p: Row -> bool): Row -> bool { (r: Row) => r.school.id == school && p(r) }

  ghost predicate Describes(c: Counters, rows: seq<Row>) {
    && c.notSubmitted == Count(NotSubmitted(), rows) && c.submitted == Count(Submitted(), rows)
    && c.inReview == Count(InReview(), rows)
    && c.supplementRequired == Count(SupplementRequired(), rows)
    && c.resolutionBlocked == Count(ResolutionBlocked(), rows)
    && c.reviewComplete == Count(Complete(), rows)
    && |c.byProgress| == 6 && (forall n :: 0 <= n <= 5 ==> c.byProgress[n] == Count(AtProgress(n), rows))
    && c.unexpectedTasks == Sum(Unexpected(), rows) && c.missingSlots == Sum(MissingIn(), rows)
    && c.finalized == Count(Finalized(), rows)
    && c.passed == Count(Result(FinalStatus.Passed), rows) && c.failed == Count(Result(FinalStatus.Failed), rows)
    && c.notFinalized == Count(Result(FinalStatus.Pending), rows)
    && c.supplementTasks == Sum(SupplementTasks(), rows)
    && c.openCases == Sum(OpenCases(), rows) && c.resolvedCases == Sum(ResolvedCases(), rows)
  }

  ghost predicate DescribesSchool(t: SchoolTotals, school: Id, rows: seq<Row>) {
    && t.submitted == Count(At(school, Submitted()), rows) && t.inReview == Count(At(school, InReview()), rows)
    && t.supplementRequired == Count(At(school, SupplementRequired()), rows)
    && t.reviewComplete == Count(At(school, Complete()), rows)
    && t.finalPassed == Count(At(school, Result(FinalStatus.Passed)), rows)
    && t.finalFailed == Count(At(school, Result(FinalStatus.Failed)), rows)
  }

  /** A school has an entry exactly if it is listed or has an application. */
  ghost predicate DescribesSchools(bySchool: map<Id, SchoolTotals>, listed: set<Id>, rows: seq<Row>) {
    && (forall id :: id in bySchool <==> id in listed || exists r :: r in rows && r.school.id == id)
    && (forall id :: id in bySchool ==> DescribesSchool(bySchool[id], id, rows))
  }

  lemma CountsNext(c: Counters, rows: seq<Row>, r: Row, d: Counters)
    requires Describes(c, rows) && |d.byProgress| == 6
    requires d.notSubmitted == c.notSubmitted + One(!IsSubmitted(r)) && d.submitted == c.submitted + One(IsSubmitted(r))
    requires d.inReview == c.inReview + One(IsInReview(r))
    requires d.supplementRequired == c.supplementRequired + One(IsSupplementRequired(r))
    requires d.resolutionBlocked == c.resolutionBlocked + One(IsResolutionBlocked(r))
    requires d.reviewComplete == c.reviewComplete + One(Complete()(r))
    requires forall n :: 0 <= n <= 5 ==> d.byProgress[n] == c.byProgress[n] + One(AtProgress(n)(r))
    requires d.unexpectedTasks == c.unexpectedTasks + Unexpected()(r)
             && d.missingSlots == c.missingSlots + MissingIn()(r)
    requires d.finalized == c.finalized + One(Finalized()(r))
    requires d.passed == c.passed + One(Result(FinalStatus.Passed)(r))
    requires d.failed == c.failed + One(Result(FinalStatus.Failed)(r))
    requires d.notFinalized == c.notFinalized + One(Result(FinalStatus.Pending)(r))
    requires d.supplementTasks == c.supplementTasks + SupplementTasks()(r)
    requires d.openCases == c.openCases + OpenCases()(r) && d.resolvedCases == c.resolvedCases + ResolvedCases()(r)
    ensures Describes(d, rows + [r])
  {
    hide Count, Sum, ProgressOf, IsSubmitted, IsInReview, IsSupplementRequired, IsResolutionBlocked, CityResult;
    CountSnoc(NotSubmitted(), rows, r);
    CountSnoc(Submitted(), rows, r);
    CountSnoc(InReview(), rows, r);
    CountSnoc(SupplementRequired(), rows, r);
    CountSnoc(ResolutionBlocked(), rows, r);
    CountSnoc(Complete(), rows, r);
    forall n | 0 <= n <= 5 ensures d.byProgress[n] == Count(AtProgress(n), rows + [r]) {
      CountSnoc(AtProgress(n), rows, r);
    }
    SumSnoc(Unexpected(), rows, r);
    SumSnoc(MissingIn(), rows, r);
    CountSnoc(Finalized(), rows, r);
    CountSnoc(Result(FinalStatus.Passed), rows, r);
    CountSnoc(Result(FinalStatus.Failed), rows, r);
    CountSnoc(Result(FinalStatus.Pending), rows, r);
    SumSnoc(SupplementTasks(), rows, r);
    SumSnoc(OpenCases(), rows, r);
    SumSnoc(ResolvedCases(), rows, r);
  }

  lemma SchoolNext(t: SchoolTotals, id: Id, rows: seq<Row>, r: Row, u: SchoolTotals)
    requires DescribesSchool(t, id, rows)
    requires u.submitted == t.submitted + One(At(id, Submitted())(r))
             && u.inReview == t.inReview + One(At(id, InReview())(r))
    requires u.supplementRequired == t.supplementRequired + One(At(id, SupplementRequired())(r))
    requires u.reviewComplete == t.reviewComplete + One(At(id, Complete())(r))
    requires u.finalPassed == t.finalPassed + One(At(id, Result(FinalStatus.Passed))(r))
    requires u.finalFailed == t.finalFailed + One(At(id, Result(FinalStatus.Failed))(r))
    ensures DescribesSchool(u, id, rows + [r])
  {
    hide Count, At, Submitted, InReview, SupplementRequired, Complete, Result;
    CountSnoc(At(id, Submitted()), rows, r);
    CountSnoc(At(id, InReview()), rows, r);
    CountSnoc(At(id, SupplementRequired()), rows, r);
    CountSnoc(At(id, Complete()), rows, r);
    CountSnoc(At(id, Result(FinalStatus.Passed)), rows, r);
    CountSnoc(At(id, Result(FinalStatus.Failed)), rows, r);
  }

  /** The totals of a school after one more of its applications. */
  ghost predicate OneMore(t: SchoolTotals, r: Row, u: SchoolTotals) {
    && u.submitted == t.submitted + One(Submitted()(r)) && u.inReview == t.inReview + One(InReview()(r))
    && u.supplementRequired == t.supplementRequired + One(SupplementRequired()(r))
    && u.reviewComplete == t.reviewComplete + One(Complete()(r))
    && u.finalPassed == t.finalPassed + One(Result(FinalStatus.Passed)(r))
    && u.finalFailed == t.finalFailed + One(Result(FinalStatus.Failed)(r))
  }

  lemma {:induction false} NoneOfSchool(id: Id, p: Row -> bool, rows: seq<Row>)
    requires forall r :: r in rows ==> r.school.id != id
    ensures Count(At(id, p), rows) == 0
  {
    if rows != [] {
      NoneOfSchool(id, p, rows[1..]);
    }
  }

  lemma NewSchool(id: Id, rows: seq<Row>)
    requires forall r :: r in rows ==> r.school.id != id
    ensures DescribesSchool(NO_TOTALS, id, rows)
  {
    hide Count, At, Submitted, InReview, SupplementRequired, Complete, Result;
    NoneOfSchool(id, Submitted(), rows);
    NoneOfSchool(id, InReview(), rows);
    NoneOfSchool(id, SupplementRequired(), rows);
    NoneOfSchool(id, Complete(), rows);
    NoneOfSchool(id, Result(FinalStatus.Passed), rows);
    NoneOfSchool(id, Result(FinalStatus.Failed), rows);
  }

  lemma SchoolsNext(bySchool: map<Id, SchoolTotals>, listed: set<Id>, rows: seq<Row>, r: Row, u: SchoolTotals)
    requires DescribesSchools(bySchool, listed, rows)
    requires OneMore(if r.school.id in bySchool then bySchool[r.school.id] else NO_TOTALS, r, u)
    ensures DescribesSchools(bySchool[r.school.id := u], listed, rows + [r])
  {
    hide DescribesSchool, OneMore, Submitted, InReview, SupplementRequired, Complete, Result;
    var after := bySchool[r.school.id := u];
    assert forall x :: x in rows + [r] <==> x in rows || x == r;
    assert r in rows + [r];
    forall id | id in after ensures DescribesSchool(after[id], id, rows + [r]) {
      if id == r.school.id {
        if id !in bySchool {
          NewSchool(id, rows);
        }
        OwnSchoolNext(if id in bySchool then bySchool[id] else NO_TOTALS, rows, r, u);
      } else {
        OtherSchoolNext(bySchool[id], id, rows, r);
      }
    }
  }

  lemma OwnSchoolNext(t: SchoolTotals, rows: seq<Row>, r: Row, u: SchoolTotals)
    requires DescribesSchool(t, r.school.id, rows) && OneMore(t, r, u)
    ensures DescribesSchool(u, r.school.id, rows + [r])
  {
    hide Submitted, InReview, SupplementRequired, Complete, Result, DescribesSchool;
    SchoolNext(t, r.school.id, rows, r, u);
  }

  lemma OtherSchoolNext(t: SchoolTotals, id: Id, rows: seq<Row>, r: Row)
    requires DescribesSchool(t, id, rows) && r.school.id != id
    ensures DescribesSchool(t, id, rows + [r])
  {
    hide Submitted, InReview, SupplementRequired, Complete, Result, DescribesSchool;
    SchoolNext(t, id, rows, r, t);
  }

  method CountIf<T>(p: T -> bool, s: seq<T>) returns (n: nat)
    ensures n == Count(p, s)
  {
    n := 0;
    for i := 0 to |s|
      invariant n == Count(p, s[..i])
    {
      assert s[..i + 1] == s[..i] + [s[i]];
      CountSnoc(p, s[..i], s[i]);
      if p(s[i]) {
        n := n + 1;
      }
    }
    assert s[..|s|] == s;
  }

  predicate IsWanted(workspaceId: Option<Id>, id: Id) { Truthy(workspaceId) ==> id == workspaceId.value }

  /** The listed schools of the summary start with an entry of zeros. */
  method ListSchools(schools: seq<School>, workspaceId: Option<Id>) returns (bySchool: map<Id, SchoolTotals>)
    ensures forall id :: id in bySchool <==>
              (workspaceId in {None, Some("")} || workspaceId == Some(id)) && exists s :: s in schools && s.id == id
    ensures forall id :: id in bySchool ==> bySchool[id] == NO_TOTALS
  {
    bySchool := map[];
    for i := 0 to |schools|
      invariant forall id :: id in bySchool <==>
        IsWanted(workspaceId, id) && exists s :: s in schools[..i] && s.id == id
      invariant forall id :: id in bySchool ==> bySchool[id] == NO_TOTALS
    {
      var school := schools[i];
      assert schools[..i + 1] == schools[..i] + [school];
      if IsWanted(workspaceId, school.id) {
        bySchool := bySchool[school.id := NO_TOTALS];
      }
    }
    assert schools[..|schools|] == schools;
  }

  method CountSubmission(c: Counters, r: Row, progress: Progress) returns (d: Counters)
    requires |c.byProgress| == 6 && progress.reviewed <= 5
    ensures |d.byProgress| == 6
    ensures d == c.(
              notSubmitted := c.notSubmitted + One(!IsSubmitted(r)), submitted := c.submitted + One(IsSubmitted(r)),
              inReview := c.inReview + One(IsInReview(r)), byProgress := d.byProgress,
              unexpectedTasks := c.unexpectedTasks + (if IsSubmitted(r) then progress.unexpectedTasks else 0),
              missingSlots := c.missingSlots + (if IsSubmitted(r) then progress.missingSlots else 0))
    ensures forall n :: 0 <= n <= 5 ==>
              d.byProgress[n] == c.byProgress[n] + One(IsSubmitted(r) && progress.reviewed == n)
  {
    d := c;
    var submitted := r.submittedAt.Some?;
    if !submitted {
      d := d.(notSubmitted := d.notSubmitted + 1);
    } else {
      d := d.(submitted := d.submitted + 1);
    }
    if submitted && (r.status.Submitted? || r.status.UnderReview?) {
      d := d.(inReview := d.inReview + 1);
    }
    if submitted {
      d := d.(byProgress := d.byProgress[progress.reviewed := d.byProgress[progress.reviewed] + 1],
              unexpectedTasks := d.unexpectedTasks + progress.unexpectedTasks,
              missingSlots := d.missingSlots + progress.missingSlots);
    }
  }

  method CountResult(c: Counters, r: Row) returns (d: Counters)
    ensures d == c.(
              finalized := c.finalized + One(Finalized()(r)), passed := c.passed + One(Result(FinalStatus.Passed)(r)),
              failed := c.failed + One(Result(FinalStatus.Failed)(r)),
              notFinalized := c.notFinalized + One(Result(FinalStatus.Pending)(r)))
  {
    d := c;
    if r.submittedAt.Some? {
      if r.finalStatus.Pending? {
        d := d.(notFinalized := d.notFinalized + 1);
      } else {
        d := d.(finalized := d.finalized + 1);
        if r.finalStatus.Passed? && r.finalLevel == Some(Level.City) {
          d := d.(passed := d.passed + 1);
        } else {
          d := d.(failed := d.failed + 1);
        }
      }
    }
  }

  /** The review tasks of the applications, one application after the other. */
  function TasksOf(rows: seq<Row>): seq<TaskRow> {
    if rows == [] then [] else TasksOf(rows[..|rows| - 1]) + rows[|rows| - 1].tasks
  }

  lemma TasksSnoc(rows: seq<Row>, r: Row)
    ensures TasksOf(rows + [r]) == TasksOf(rows) + r.tasks
  {
    assert (rows + [r])[..|rows|] == rows;
  }

  method CountRow(c: Counters, criteria: seq<CriterionTotals>, officers: map<Id, OfficerTotals>, r: Row,
                  ghost rows: seq<Row>, ghost cityOfficers: seq<Id>)
    returns (d: Counters, criteria': seq<CriterionTotals>, officers': map<Id, OfficerTotals>, complete: bool)
    requires Describes(c, rows)
    requires DescribesCriteria(criteria, TasksOf(rows)) && DescribesOfficers(officers, cityOfficers, TasksOf(rows))
    ensures Describes(d, rows + [r]) && complete == Complete()(r)
    ensures DescribesCriteria(criteria', TasksOf(rows + [r]))
    ensures DescribesOfficers(officers', cityOfficers, TasksOf(rows + [r]))
  {
    hide Describes, DescribesCriteria, DescribesOfficers, TasksOf, ProgressOf, IsSubmitted, IsInReview,
      IsSupplementRequired, IsResolutionBlocked, Count, Sum, Finalized, Result;
    SixBuckets(c, rows);
    var progress := Compute(r.tasks);
    ReviewedIsAtMostFive(r.tasks);
    d := CountSubmission(c, r, progress);
    complete := IsSubmitted(r) && progress.reviewed == 5 && !progress.anomalous;
    TasksSnoc(rows, r);
    criteria', officers' := CountTasks(criteria, officers, r.tasks, TasksOf(rows), cityOfficers);
    var supplementTasks := CountIf(AsksSupplement(), r.tasks);
    var openCases := CountIf(IsOpen(), r.cases);
    var resolvedCases := CountIf(IsResolved(), r.cases);
    d := d.(reviewComplete := d.reviewComplete + One(complete),
            supplementRequired := d.supplementRequired + One(IsSupplementRequired(r)),
            supplementTasks := d.supplementTasks + supplementTasks,
            openCases := d.openCases + openCases, resolvedCases := d.resolvedCases + resolvedCases,
            resolutionBlocked := d.resolutionBlocked + One(IsResolutionBlocked(r)));
    d := CountResult(d, r);
    CountsNext(c, rows, r, d);
  }

  lemma SixBuckets(c: Counters, rows: seq<Row>)
    requires Describes(c, rows)
    ensures |c.byProgress| == 6
  {
  }

  lemma ReviewedIsAtMostFive(tasks: seq<TaskRow>)
    ensures ProgressOf(tasks).reviewed <= 5
  {
    TasksFillSlotsOrAreUnexpected(tasks);
  }

  method CountSchool(t: SchoolTotals, r: Row, complete: bool) returns (u: SchoolTotals)
    requires complete == Complete()(r)
    ensures OneMore(t, r, u)
  {
    hide IsSupplementRequired, Complete;
    u := t;
    var submitted := r.submittedAt.Some?;
    if submitted {
      u := u.(submitted := u.submitted + 1);
    }
    if submitted && (r.status.Submitted? || r.status.UnderReview?) {
      u := u.(inReview := u.inReview + 1);
    }
    if IsSupplementRequired(r) {
      u := u.(supplementRequired := u.supplementRequired + 1);
    }
    if complete {
      u := u.(reviewComplete := u.reviewComplete + 1);
    }
    if submitted && !r.finalStatus.Pending? {
      if r.finalStatus.Passed? && r.finalLevel == Some(Level.City) {
        u := u.(finalPassed := u.finalPassed + 1);
      } else {
        u := u.(finalFailed := u.finalFailed + 1);
      }
    }
  }

  /** One pass over the applications; every figure ends up counting what it says. */
  method Summarize(rows: seq<Row>, schools: seq<School>, cityOfficers: seq<Id>, workspaceId: Option<Id>)
    returns (c: Counters, criteria: seq<CriterionTotals>, bySchool: map<Id, SchoolTotals>,
             officers: map<Id, OfficerTotals>, ghost listed: set<Id>)
    ensures Describes(c, rows) && DescribesSchools(bySchool, listed, rows)
    ensures forall id :: id in listed <==>
              (workspaceId in {None, Some("")} || workspaceId == Some(id)) && exists s :: s in schools && s.id == id
    ensures DescribesCriteria(criteria, TasksOf(rows)) && DescribesOfficers(officers, cityOfficers, TasksOf(rows))
  {
    hide Describes, DescribesSchools, DescribesCriteria, DescribesOfficers, OneMore, Complete;
    criteria := ListCriteria();
    bySchool := ListSchools(schools, workspaceId);
    officers := ListOfficers(cityOfficers);
    listed := bySchool.Keys;
    c := NO_COUNTS;
    NothingCounted();
    OnlyListed(bySchool);
    for i := 0 to |rows|
      invariant Describes(c, rows[..i]) && DescribesSchools(bySchool, listed, rows[..i])
      invariant DescribesCriteria(criteria, TasksOf(rows[..i]))
                && DescribesOfficers(officers, cityOfficers, TasksOf(rows[..i]))
    {
      assert rows[..i + 1] == rows[..i] + [rows[i]];
      var id, complete := rows[i].school.id, false;
      c, criteria, officers, complete := CountRow(c, criteria, officers, rows[i], rows[..i], cityOfficers);
      var totals := CountSchool(if id in bySchool then bySchool[id] else NO_TOTALS, rows[i], complete);
      SchoolsNext(bySchool, listed, rows[..i], rows[i], totals);
      bySchool := bySchool[id := totals];
    }
    assert rows[..|rows|] == rows;
  }

  lemma NothingCounted()
    ensures Describes(NO_COUNTS, [])
  {
    hide NotSubmitted, Submitted, InReview, SupplementRequired, ResolutionBlocked, Complete, AtProgress, Unexpected,
      MissingIn, Finalized, Result, SupplementTasks, OpenCases, ResolvedCases, Count, Sum;
    CountNothing(NotSubmitted());
    CountNothing(Submitted());
    CountNothing(InReview());
    CountNothing(SupplementRequired());
    CountNothing(ResolutionBlocked());
    CountNothing(Complete());
    forall n | 0 <= n <= 5 ensures Count(AtProgress(n), []) == 0 {
      CountNothing(AtProgress(n));
    }
    SumNothing(Unexpected());
    SumNothing(MissingIn());
    CountNothing(Finalized());
    CountNothing(Result(FinalStatus.Passed));
    CountNothing(Result(FinalStatus.Failed));
    CountNothing(Result(FinalStatus.Pending));
    SumNothing(SupplementTasks());
    SumNothing(OpenCases());
    SumNothing(ResolvedCases());
  }

  lemma OnlyListed(bySchool: map<Id, SchoolTotals>)
    requires forall id :: id in bySchool ==> bySchool[id] == NO_TOTALS
    ensures DescribesSchools(bySchool, bySchool.Keys, [])
  {
    hide DescribesSchool;
    forall id | id in bySchool ensures DescribesSchool(bySchool[id], id, []) {
      NewSchool(id, []);
    }
  }

  // ---------- The figures and the lists behind them ----------

  datatype Figure =
    | SubmittedFigure | NotSubmittedFigure | InReviewFigure | SupplementFigure | BlockedFigure
    | PassedFigure | FailedFigure | NotFinalizedFigure

  function FigureOf(c: Counters, f: Figure): nat {
    match f
    case SubmittedFigure => c.submitted
    case NotSubmittedFigure => c.notSubmitted
    case InReviewFigure => c.inReview
    case SupplementFigure => c.supplementRequired
    case BlockedFigure => c.resolutionBlocked
    case PassedFigure => c.passed
    case FailedFigure => c.failed
    case NotFinalizedFigure => c.notFinalized
  }

  /** What the figure counts. */
  function Meaning(f: Figure): Row -> bool {
    match f
    case SubmittedFigure => Submitted()
    case NotSubmittedFigure => NotSubmitted()
    case InReviewFigure => InReview()
    case SupplementFigure => SupplementRequired()
    case BlockedFigure => ResolutionBlocked()
    case PassedFigure => Result(FinalStatus.Passed)
    case FailedFigure => Result(FinalStatus.Failed)
    case NotFinalizedFigure => Result(FinalStatus.Pending)
  }

  datatype Selection = Selection(schoolYear: string, workspaceId: Option<Id>, status: Option<AppStatus>)

  function PlainQuery(s: Selection): Query {
    Query(s.schoolYear, s.workspaceId, s.status, None, None, None, None, None, None, None, None)
  }

  /** The list a figure leads to. */
  function DrillDown(s: Selection, f: Figure): Query {
    var q := PlainQuery(s);
    match f
    case SubmittedFigure => q.(submitted := Some(true))
    case NotSubmittedFigure => q.(submitted := Some(false))
    case InReviewFigure => q.(inReview := Some(true))
    case SupplementFigure => q.(supplementRequired := Some(true))
    case BlockedFigure => q.(resolutionBlocked := Some(true))
    case PassedFigure => q.(finalStatus := Some(FinalStatus.Passed), submitted := Some(true))
    case FailedFigure => q.(finalStatus := Some(FinalStatus.Failed), submitted := Some(true))
    case NotFinalizedFigure => q.(finalStatus := Some(FinalStatus.Pending), submitted := Some(true))
  }

  function Selected(like: (string, string) -> bool, q: Query): Row -> bool {
    (r: Row) => Selects(like, ListWhere(q), r)
  }

  /** `total` of the list's pagination. */
  function Total(like: (string, string) -> bool, q: Query, db: seq<Row>): nat { Count(Selected(like, q), db) }

  function Scoped(s: Selection): Row -> bool { (r: Row) => InScope(s.schoolYear, s.workspaceId, s.status, r) }

  /** The applications the summary is made of. */
  function SummaryRows(s: Selection, db: seq<Row>): seq<Row> { Filter(Scoped(s), db) }

  /** Every figure of a summary is the total of the list it leads to. */
  lemma FiguresAreListTotals(like: (string, string) -> bool, s: Selection, f: Figure, c: Counters, db: seq<Row>)
    requires Describes(c, SummaryRows(s, db))
    ensures Total(like, DrillDown(s, f), db) == FigureOf(c, f)
  {
    hide Count, Filter, Selects, ListWhere, InScope, IsInReview, IsSupplementRequired, IsResolutionBlocked, CityResult,
      ProgressOf;
    CountFiltered(Meaning(f), Scoped(s), db);
    forall r | r in db ensures Selected(like, DrillDown(s, f))(r) == Sequences.Both(Scoped(s), Meaning(f))(r) {
      ListSelectsIff(like, DrillDown(s, f), r);
    }
    CountSame(Selected(like, DrillDown(s, f)), Sequences.Both(Scoped(s), Meaning(f)), db);
  }

  /** So is every figure of a school, in the list narrowed to that school. */
  lemma SchoolFiguresAreListTotals(like: (string, string) -> bool, s: Selection, id: Id, f: Figure, db: seq<Row>)
    requires s.workspaceId.None? && id != ""
    ensures Total(like, DrillDown(s.(workspaceId := Some(id)), f), db) == Count(At(id, Meaning(f)), SummaryRows(s, db))
  {
    hide Count, Filter, Selects, ListWhere, IsInReview, IsSupplementRequired, IsResolutionBlocked, CityResult,
      ProgressOf;
    var q := DrillDown(s.(workspaceId := Some(id)), f);
    CountFiltered(At(id, Meaning(f)), Scoped(s), db);
    forall r | r in db ensures Selected(like, q)(r) == Sequences.Both(Scoped(s), At(id, Meaning(f)))(r) {
      ListSelectsIff(like, q, r);
    }
    CountSame(Selected(like, q), Sequences.Both(Scoped(s), At(id, Meaning(f))), db);
  }

  /** A final-status list not narrowed to submitted applications shows the unsubmitted ones on top of the
      figure: the two agree exactly if no unsubmitted application of the selection has that result. */
  lemma BareFinalListAgreesIff(like: (string, string) -> bool, s: Selection, status: FinalStatus, db: seq<Row>)
    requires !status.PartiallyPassed?
    ensures var q := PlainQuery(s).(finalStatus := Some(status));
            Total(like, q, db) == Total(like, q.(submitted := Some(true)), db)
            <==> forall r :: r in SummaryRows(s, db) && CityResult(r.finalStatus, r.finalLevel) == status ==>
                 IsSubmitted(r)
  {
    var q := PlainQuery(s).(finalStatus := Some(status));
    var narrow := q.(submitted := Some(true));
    hide Count, Selects, ListWhere, InScope, IsSubmitted, CityResult;
    forall r ensures Selected(like, q)(r) <==> Scoped(s)(r) && CityResult(r.finalStatus, r.finalLevel) == status {
      ListSelectsIff(like, q, r);
    }
    forall r ensures Selected(like, narrow)(r) <==> Selected(like, q)(r) && IsSubmitted(r) {
      ListSelectsIff(like, narrow, r);
      ListSelectsIff(like, q, r);
    }
    CountNarrowed(Selected(like, narrow), Selected(like, q), db);
    InFilter(Scoped(s), db);
  }

  /** An application that is still a draft. */
  const DRAFT_ROW := Row(
    "1", QueryFilters.School.School("s", "S", "School", SchoolWorkspace, true), QueryFilters.Student.Student("A", None),
    "2025-2026", AppType.Individual, Level.City, AppStatus.Draft, None, None, FinalStatus.Pending, None, [], [])

  lemma CountOne(p: Row -> bool, row: Row)
    ensures Count(p, [row]) == if p(row) then 1 else 0
  {
    assert [row][1..] == [];
  }

  /** They do differ: a draft has a pending result but is not among the figure's applications. */
  lemma BareFinalListShowsDrafts(like: (string, string) -> bool)
    ensures var q := PlainQuery(Selection("2025-2026", None, None)).(finalStatus := Some(FinalStatus.Pending));
            Total(like, q, [DRAFT_ROW]) == 1 && Total(like, q.(submitted := Some(true)), [DRAFT_ROW]) == 0
  {
    var q := PlainQuery(Selection("2025-2026", None, None)).(finalStatus := Some(FinalStatus.Pending));
    var narrow := q.(submitted := Some(true));
    ListSelectsIff(like, q, DRAFT_ROW);
    ListSelectsIff(like, narrow, DRAFT_ROW);
    hide ListWhere, Selects;
    assert Concerns("2025-2026", None, None, DRAFT_ROW);
    assert Accepts(like, q, DRAFT_ROW) && !Accepts(like, narrow, DRAFT_ROW);
    CountOne(Selected(like, q), DRAFT_ROW);
    CountOne(Selected(like, narrow), DRAFT_ROW);
  }

  function Counted(like: (string, string) -> bool, s: Selection, lifecycle: Lifecycle): Row -> bool {
    (r: Row) => Selects(like, And(CityApplicationWhere(s.schoolYear, s.workspaceId, s.status, lifecycle)), r)
  }

  /** The applications of the summary and the cancelled ones it counts apart are all of the selection. */
  lemma ActiveAndCancelledAreAll(like: (string, string) -> bool, s: Selection, db: seq<Row>)
    ensures |SummaryRows(s, db)| + Count(Counted(like, s, Cancelled), db) == Count(Counted(like, s, All), db)
  {
    hide CityApplicationWhere, Concerns;
    forall r | r in db
      ensures One(Scoped(s)(r)) + One(Counted(like, s, Cancelled)(r)) == One(Counted(like, s, All)(r))
    {
      ScopeSelects(like, s.schoolYear, s.workspaceId, s.status, Cancelled, r);
      ScopeSelects(like, s.schoolYear, s.workspaceId, s.status, All, r);
    }
    TwoParts(Scoped(s), Counted(like, s, Cancelled), Counted(like, s, All), db);
  }

  // ---------- Completed reviews ----------

  /** Submitted, with one task for each core criterion and no other, and every one of them accepted or rejected. */
  predicate IsReviewed(r: Row) { r.submittedAt.Some? && FullyReviewed(r.tasks) }

  /** The figure of completed reviews counts exactly the fully reviewed applications, all of which have five reviewed
      slots. */
  lemma CompletedAreReviewed(c: Counters, rows: seq<Row>)
    requires Describes(c, rows)
    ensures c.reviewComplete == Count(r => IsReviewed(r), rows)
    ensures c.reviewComplete <= c.byProgress[5] <= c.submitted
  {
    forall r: Row ensures Complete()(r) == IsReviewed(r) {
      FullyReviewedIff(r.tasks);
    }
    hide Count, ProgressOf, FullyReviewed;
    CountSame(Complete(), r => IsReviewed(r), rows);
    CountNarrowed(Complete(), AtProgress(5), rows);
    CountNarrowed(AtProgress(5), Submitted(), rows);
    assert c.byProgress[5] == Count(AtProgress(5), rows);
  }

  /** So does the figure of a school. */
  lemma CompletedAreReviewedAt(t: SchoolTotals, id: Id, rows: seq<Row>)
    requires DescribesSchool(t, id, rows)
    ensures t.reviewComplete == Count(At(id, r => IsReviewed(r)), rows)
    ensures t.reviewComplete <= t.submitted
  {
    forall r: Row ensures Complete()(r) == IsReviewed(r) {
      FullyReviewedIff(r.tasks);
    }
    hide Count, ProgressOf, FullyReviewed;
    CountSame(At(id, Complete()), At(id, r => IsReviewed(r)), rows);
    CountNarrowed(At(id, Complete()), At(id, Submitted()), rows);
  }

  function Progresses(rows: seq<Row>): nat -> nat { (n: nat) => Count(AtProgress(n), rows) }

  /** Each submitted application is in exactly one of the six progress figures. */
  lemma {:induction false} ProgressAddsUp(c: Counters, rows: seq<Row>)
    requires Describes(c, rows)
    ensures c.byProgress[0] + c.byProgress[1] + c.byProgress[2] + c.byProgress[3] + c.byProgress[4] + c.byProgress[5]
            == c.submitted
  {
    ProgressesAddUp(rows);
    hide Count;
  }

  lemma {:induction false} ProgressesAddUp(rows: seq<Row>)
    ensures var f := Progresses(rows); f(0) + f(1) + f(2) + f(3) + f(4) + f(5) == Count(Submitted(), rows)
  {
    if rows != [] {
      ProgressesAddUp(rows[1..]);
      ReviewedIsAtMostFive(rows[0].tasks);
      hide ProgressOf;
    }
  }

  /** Slots without a task, and tasks that are not the first of a slot, of the submitted applications alone. */
  function MissingSlotsOf(r: Row): nat {
    if r.submittedAt == None then 0 else |Those(c => SlotMissing(r.tasks, c), CORE_CRITERIA)|
  }

  function UnexpectedTasksOf(r: Row): int {
    if r.submittedAt == None then 0 else |r.tasks| + MissingSlotsOf(r) - 5
  }

  function TasksAsking(r: Row): nat { Count((t: TaskRow) => t.status == TaskStatus.SupplementRequired, r.tasks) }

  lemma FiguresOf(r: Row)
    ensures MissingIn()(r) == MissingSlotsOf(r) && Unexpected()(r) == UnexpectedTasksOf(r)
    ensures SupplementTasks()(r) == TasksAsking(r)
  {
    ProgressMeans(r.tasks);
    TasksFillSlotsOrAreUnexpected(r.tasks);
    hide ProgressOf, Those, Count, SlotMissing;
    CountSame(AsksSupplement(), (t: TaskRow) => t.status == TaskStatus.SupplementRequired, r.tasks);
  }

  function IntSum(f: Row -> int, rows: seq<Row>): int { if rows == [] then 0 else f(rows[0]) + IntSum(f, rows[1..]) }

  lemma {:induction false} SlotSums(rows: seq<Row>)
    ensures Sum(MissingIn(), rows) == IntSum(r => MissingSlotsOf(r), rows)
    ensures Sum(Unexpected(), rows) == IntSum(r => UnexpectedTasksOf(r), rows)
    ensures Sum(SupplementTasks(), rows) == IntSum(r => TasksAsking(r), rows)
  {
    if rows != [] {
      SlotSums(rows[1..]);
      FiguresOf(rows[0]);
      hide MissingIn, Unexpected, SupplementTasks, MissingSlotsOf, UnexpectedTasksOf, TasksAsking;
    }
  }

  /** The figures of slots and tasks sum what is missing, unexpected or awaited in each application; slots and
      unexpected tasks only once it is submitted. */
  lemma SlotFiguresSum(c: Counters, rows: seq<Row>)
    requires Describes(c, rows)
    ensures c.missingSlots == IntSum(r => MissingSlotsOf(r), rows)
    ensures c.unexpectedTasks == IntSum(r => UnexpectedTasksOf(r), rows)
    ensures c.supplementTasks == IntSum(r => TasksAsking(r), rows)
  {
    SlotSums(rows);
    hide Sum, Count, IntSum;
  }

  function CaseCount(): Row -> nat { (r: Row) => |r.cases| }

  /** Every case is counted as open or as resolved. */
  lemma CasesAddUp(c: Counters, rows: seq<Row>)
    requires Describes(c, rows)
    ensures c.openCases + c.resolvedCases == Sum(CaseCount(), rows)
  {
    CaseSums(rows);
    hide Sum;
  }

  lemma {:induction false} CaseSums(rows: seq<Row>)
    ensures Sum(OpenCases(), rows) + Sum(ResolvedCases(), rows) == Sum(CaseCount(), rows)
  {
    if rows != [] {
      CaseSums(rows[1..]);
      CaseParts(rows[0].cases);
    }
  }

  lemma {:induction false} CaseParts(cases: seq<ResolutionStatus>)
    ensures Count(IsOpen(), cases) + Count(IsResolved(), cases) == |cases|
  {
    if cases != [] {
      CaseParts(cases[1..]);
    }
  }

  // ---------- What adds up ----------

  lemma {:induction false} TwoParts(p: Row -> bool, q: Row -> bool, whole: Row -> bool, rows: seq<Row>)
    requires forall r :: r in rows ==> One(p(r)) + One(q(r)) == One(whole(r))
    ensures Count(p, rows) + Count(q, rows) == Count(whole, rows)
  {
    if rows != [] {
      TwoParts(p, q, whole, rows[1..]);
    }
  }

  /** Submitted and unsubmitted applications make up all; finalized and not finalized, the submitted ones;
      passed and failed, the finalized ones. */
  lemma FiguresAddUp(c: Counters, rows: seq<Row>)
    requires Describes(c, rows)
    ensures c.submitted + c.notSubmitted == |rows|
    ensures c.finalized + c.notFinalized == c.submitted && c.passed + c.failed == c.finalized
  {
    hide IsSubmitted, IsInReview, IsSupplementRequired, IsResolutionBlocked, ProgressOf, Count, Sum;
    TwoParts(Submitted(), NotSubmitted(), (r: Row) => true, rows);
    CountAll(rows);
    TwoParts(Finalized(), Result(FinalStatus.Pending), Submitted(), rows);
    TwoParts(Result(FinalStatus.Passed), Result(FinalStatus.Failed), Finalized(), rows);
  }

  lemma {:induction false} CountAll(rows: seq<Row>)
    ensures Count((r: Row) => true, rows) == |rows|
  {
    if rows != [] {
      CountAll(rows[1..]);
    }
  }

  function AtSchools(p: Row -> bool, rows: seq<Row>): Id -> nat { (id: Id) => Count(At(id, p), rows) }

  lemma {:induction false} OneSchool(ids: seq<Id>, p: Row -> bool, rows: seq<Row>, r: Row)
    requires Distinct(ids)
    ensures Sum(AtSchools(p, rows + [r]), ids) == Sum(AtSchools(p, rows), ids) + One(r.school.id in ids && p(r))
  {
    if ids != [] {
      OneSchool(ids[1..], p, rows, r);
      CountSnoc(At(ids[0], p), rows, r);
    }
  }

  lemma {:induction false} NoRows(ids: seq<Id>, p: Row -> bool)
    ensures Sum(AtSchools(p, []), ids) == 0
  {
    if ids != [] {
      NoRows(ids[1..], p);
    }
  }

  /** Summed over all schools, a school figure gives the overall one. */
  lemma {:induction false} SchoolsAddUp(ids: seq<Id>, p: Row -> bool, rows: seq<Row>)
    requires Distinct(ids) && forall r :: r in rows ==> r.school.id in ids
    ensures Sum(AtSchools(p, rows), ids) == Count(p, rows)
  {
    if rows == [] {
      NoRows(ids, p);
    } else {
      var init, last := rows[..|rows| - 1], rows[|rows| - 1];
      assert rows == init + [last];
      SchoolsAddUp(ids, p, init);
      OneSchool(ids, p, init, last);
      CountSnoc(p, init, last);
    }
  }
}
