/** The Prisma filters of the City application list, as SQL evaluates them: a comparison with a missing
    value is neither true nor false, and a row is selected only if the whole condition is true. */
module QueryFilters {
  import opened ReviewTypes
  import opened ReviewProgress

  datatype School = School(id: Id, code: string, name: string, kind: WorkspaceKind, active: bool)

  datatype Student = Student(fullName: string, studentCode: Option<string>)

  datatype Row = Row(
    id: Id, school: School, student: Student, schoolYear: string, appType: AppType, targetLevel: Level,
    status: AppStatus,
    submittedAt: Option<Time>, cancelledAt: Option<Time>, finalStatus: FinalStatus, finalLevel: Option<Level>,
    tasks: seq<TaskRow>, cases: seq<ResolutionStatus>)

  // ---------- Conditions ----------

  datatype Column =
    | SchoolYearColumn | WorkspaceIdColumn | TypeColumn | TargetLevelColumn | StatusColumn | SubmittedAtColumn
    | CancelledAtColumn | FinalStatusColumn | FinalLevelColumn

  datatype Cell = Text(text: string) | Type(appType: AppType) | OfLevel(level: Level) | Status(status: AppStatus)
    | At(time: Time) | Final(finalStatus: FinalStatus)

  datatype TextColumn = FullNameColumn | StudentCodeColumn | SchoolNameColumn | SchoolCodeColumn

  datatype Where =
    | And(conditions: seq<Where>)
    | Or(conditions: seq<Where>)
    | Not(condition: Where)
    | Equals(column: Column, value: Cell)
    | Differs(column: Column, value: Cell)
    | IsNull(column: Column)
    | IsNotNull(column: Column)
    | In(column: Column, values: seq<Cell>)
    | SomeTask(criterion: Option<Criterion>, taskStatus: Option<TaskStatus>)
    | SomeCase(caseStatuses: seq<ResolutionStatus>)
    | WorkspaceIs(kind: WorkspaceKind, active: bool)
    | Contains(textColumn: TextColumn, part: string)

  datatype Truth = True | False | Unknown

  function Of(b: bool): Truth { if b then True else False }

  function Negate(t: Truth): Truth {
    match t
    case True => False
    case False => True
    case Unknown => Unknown
  }

  function Both(a: Truth, b: Truth): Truth {
    if a.False? || b.False? then False else if a.Unknown? || b.Unknown? then Unknown else True
  }

  function Either(a: Truth, b: Truth): Truth {
    if a.True? || b.True? then True else if a.Unknown? || b.Unknown? then Unknown else False
  }

  /** False before unknown before true. */
  function Degree(t: Truth): nat {
    match t
    case False => 0
    case Unknown => 1
    case True => 2
  }

  /** In three-valued logic a conjunction is as true as its least true part, a disjunction as its most true one, and
      negation turns the order around. */
  lemma ConnectivesAre(a: Truth, b: Truth)
    ensures Degree(Both(a, b)) == if Degree(a) <= Degree(b) then Degree(a) else Degree(b)
    ensures Degree(Either(a, b)) == if Degree(a) <= Degree(b) then Degree(b) else Degree(a)
    ensures Degree(Negate(a)) == 2 - Degree(a)
  {
  }

  function Read(row: Row, column: Column): Option<Cell> {
    match column
    case SchoolYearColumn => Some(Text(row.schoolYear))
    case WorkspaceIdColumn => Some(Text(row.school.id))
    case TypeColumn => Some(Type(row.appType))
    case TargetLevelColumn => Some(OfLevel(row.targetLevel))
    case StatusColumn => Some(Status(row.status))
    case SubmittedAtColumn => if row.submittedAt.Some? then Some(At(row.submittedAt.value)) else None
    case CancelledAtColumn => if row.cancelledAt.Some? then Some(At(row.cancelledAt.value)) else None
    case FinalStatusColumn => Some(Final(row.finalStatus))
    case FinalLevelColumn => if row.finalLevel.Some? then Some(OfLevel(row.finalLevel.value)) else None
  }

  function ReadText(row: Row, column: TextColumn): Option<string> {
    match column
    case FullNameColumn => Some(row.student.fullName)
    case StudentCodeColumn => row.student.studentCode
    case SchoolNameColumn => Some(row.school.name)
    case SchoolCodeColumn => Some(row.school.code)
  }

  function Compare(cell: Option<Cell>, value: Cell): Truth { if cell.None? then Unknown else Of(cell.value == value) }

  predicate TaskMatches(t: TaskRow, criterion: Option<Criterion>, status: Option<TaskStatus>) {
    (criterion.Some? ==> t.criterion == criterion.value) && (status.Some? ==> t.status == status.value)
  }

  /** `like` is the database's case-insensitive containment. */
  function Eval(like: (string, string) -> bool, w: Where, row: Row): Truth
    decreases w
  {
    match w
    case And(conditions) => EvalAnd(like, conditions, row)
    case Or(conditions) => EvalOr(like, conditions, row)
    case Not(condition) => Negate(Eval(like, condition, row))
    case Equals(column, value) => Compare(Read(row, column), value)
    case Differs(column, value) => Negate(Compare(Read(row, column), value))
    case IsNull(column) => Of(Read(row, column).None?)
    case IsNotNull(column) => Of(Read(row, column).Some?)
    case In(column, values) => if Read(row, column).None? then Unknown else Of(Read(row, column).value in values)
    case SomeTask(criterion, status) => Of(exists t :: t in row.tasks && TaskMatches(t, criterion, status))
    case SomeCase(statuses) => Of(exists c :: c in row.cases && c in statuses)
    case WorkspaceIs(kind, active) => Of(row.school.kind == kind && row.school.active == active)
    case Contains(column, part) =>
      if ReadText(row, column).None? then Unknown else Of(like(ReadText(row, column).value, part))
  }

  function EvalAnd(like: (string, string) -> bool, conditions: seq<Where>, row: Row): Truth
    decreases conditions
  {
    if conditions == [] then True else Both(Eval(like, conditions[0], row), EvalAnd(like, conditions[1..], row))
  }

  function EvalOr(like: (string, string) -> bool, conditions: seq<Where>, row: Row): Truth
    decreases conditions
  {
    if conditions == [] then False else Either(Eval(like, conditions[0], row), EvalOr(like, conditions[1..], row))
  }

  predicate Selects(like: (string, string) -> bool, w: Where, row: Row) { Eval(like, w, row).True? }

  // ---------- The filters the list builds ----------

  datatype Query = Query(
    schoolYear: string, workspaceId: Option<Id>, status: Option<AppStatus>,
    finalStatus: Option<FinalStatus>, submitted: Option<bool>, inReview: Option<bool>,
    criterion: Option<Criterion>, taskStatus: Option<TaskStatus>, q: Option<string>,
    supplementRequired: Option<bool>, resolutionBlocked: Option<bool>)

  function When(applies: bool, w: Where): seq<Where> { if applies then [w] else [] }

  function Sign(positive: bool, w: Where): Where { if positive then w else Not(w) }

  datatype Lifecycle = Active | Cancelled | All

  function CityApplicationWhere(
    schoolYear: string, workspaceId: Option<Id>, status: Option<AppStatus>, lifecycle: Lifecycle): seq<Where>
  {
    [Equals(TypeColumn, Type(AppType.Individual)), Equals(TargetLevelColumn, OfLevel(Level.City)),
     WorkspaceIs(SchoolWorkspace, true)]
    + When(lifecycle.Active?, IsNull(CancelledAtColumn))
    + When(lifecycle.Cancelled?, IsNotNull(CancelledAtColumn))
    + When(schoolYear != "", Equals(SchoolYearColumn, Text(schoolYear)))
    + When(workspaceId.Some? && workspaceId.value != "",
           Equals(WorkspaceIdColumn, Text(if workspaceId.Some? then workspaceId.value else "")))
    + (if status.Some? then [Equals(StatusColumn, Status(status.value))] else [])
  }

  const PASSED_FILTER := And([
    Equals(FinalStatusColumn, Final(FinalStatus.Passed)), Equals(FinalLevelColumn, OfLevel(Level.City))])

  const FAILED_FILTER := Or([
    Equals(FinalStatusColumn, Final(FinalStatus.Failed)),
    Equals(FinalStatusColumn, Final(FinalStatus.PartiallyPassed)),
    And([Equals(FinalStatusColumn, Final(FinalStatus.Passed)),
         Or([Differs(FinalLevelColumn, OfLevel(Level.City)), IsNull(FinalLevelColumn)])])])

  const IN_REVIEW_FILTER := And([
    IsNotNull(SubmittedAtColumn),
    In(StatusColumn, [Status(AppStatus.Submitted), Status(AppStatus.UnderReview)])])

  const SUPPLEMENT_FILTER := Or([
    Equals(StatusColumn, Status(AppStatus.SupplementRequired)), SomeTask(None, Some(TaskStatus.SupplementRequired))])

  const RESOLUTION_FILTER := Or([
    Equals(StatusColumn, Status(AppStatus.ResolutionNeeded)), SomeTask(None, Some(TaskStatus.ResolutionNeeded)),
    SomeCase([ResolutionStatus.Open, ResolutionStatus.InReview])])

  function SearchFilter(part: string): Where {
    Or([Contains(FullNameColumn, part), Contains(StudentCodeColumn, part), Contains(SchoolNameColumn, part),
        Contains(SchoolCodeColumn, part)])
  }

  function FinalFilter(finalStatus: FinalStatus): Where {
    match finalStatus
    case Passed => PASSED_FILTER
    case Failed => FAILED_FILTER
    case PartiallyPassed => FAILED_FILTER
    case Pending => Equals(FinalStatusColumn, Final(FinalStatus.Pending))
  }

  function SubmittedFilter(submitted: bool): Where {
    if submitted then IsNotNull(SubmittedAtColumn) else IsNull(SubmittedAtColumn)
  }

  function ListWhere(query: Query): Where {
    And(CityApplicationWhere(query.schoolYear, query.workspaceId, query.status, Active)
        + FinalPart(query)
        + SubmittedPart(query)
        + SignedFilter(query.inReview, IN_REVIEW_FILTER)
        + When(query.criterion.Some? || query.taskStatus.Some?, SomeTask(query.criterion, query.taskStatus))
        + SearchPart(query)
        + SignedFilter(query.supplementRequired, SUPPLEMENT_FILTER)
        + SignedFilter(query.resolutionBlocked, RESOLUTION_FILTER))
  }

  // ---------- The predicates the summary counts by ----------

  function CityResult(status: FinalStatus, level: Option<Level>): FinalStatus {
    if status.Pending? then FinalStatus.Pending
    else if status.Passed? && level == Some(Level.City) then FinalStatus.Passed
    else FinalStatus.Failed
  }

  predicate IsSubmitted(row: Row) { row.submittedAt.Some? }

  predicate IsInReview(row: Row) { IsSubmitted(row) && (row.status.Submitted? || row.status.UnderReview?) }

  predicate IsSupplementRequired(row: Row) {
    row.status.SupplementRequired? || exists t :: t in row.tasks && t.status.SupplementRequired?
  }

  predicate OpenCase(status: ResolutionStatus) { status.Open? || status.InReview? }

  predicate IsResolutionBlocked(row: Row) {
    || row.status.ResolutionNeeded?
    || (exists t :: t in row.tasks && t.status.ResolutionNeeded?)
    || exists c :: c in row.cases && OpenCase(c)
  }

  predicate InLifecycle(lifecycle: Lifecycle, row: Row) {
    match lifecycle
    case Active => row.cancelledAt.None?
    case Cancelled => row.cancelledAt.Some?
    case All => true
  }

  predicate Concerns(schoolYear: string, workspaceId: Option<Id>, status: Option<AppStatus>, row: Row) {
    && row.appType.Individual? && row.targetLevel.City? && row.school.kind.SchoolWorkspace? && row.school.active
    && (schoolYear != "" ==> row.schoolYear == schoolYear)
    && (workspaceId.Some? && workspaceId.value != "" ==> row.school.id == workspaceId.value)
    && (status.Some? ==> row.status == status.value)
  }

  /** The rows a summary is made of. */
  predicate InScope(schoolYear: string, workspaceId: Option<Id>, status: Option<AppStatus>, row: Row) {
    Concerns(schoolYear, workspaceId, status, row) && InLifecycle(Active, row)
  }

  predicate Found(like: (string, string) -> bool, part: string, row: Row) {
    || like(row.student.fullName, part) || like(row.school.name, part) || like(row.school.code, part)
    || (row.student.studentCode.Some? && like(row.student.studentCode.value, part))
  }

  /** What a query asks for, in the summary's own terms. */
  predicate Accepts(like: (string, string) -> bool, query: Query, row: Row) {
    && InScope(query.schoolYear, query.workspaceId, query.status, row)
    && (query.finalStatus.Some? ==>
          CityResult(row.finalStatus, row.finalLevel)
          == if query.finalStatus.value.PartiallyPassed? then FinalStatus.Failed else query.finalStatus.value)
    && (query.submitted.Some? ==> IsSubmitted(row) == query.submitted.value)
    && (query.inReview.Some? ==> IsInReview(row) == query.inReview.value)
    && (query.criterion.Some? || query.taskStatus.Some? ==>
          exists t :: t in row.tasks && query.criterion in {None, Some(t.criterion)}
                      && query.taskStatus in {None, Some(t.status)})
    && (query.q.Some? && query.q.value != "" ==> Found(like, query.q.value, row))
    && (query.supplementRequired.Some? ==> IsSupplementRequired(row) == query.supplementRequired.value)
    && (query.resolutionBlocked.Some? ==> IsResolutionBlocked(row) == query.resolutionBlocked.value)
  }

  // ---------- Filters and predicates agree ----------

  /** Every condition of a conjunction is true. */
  predicate Holds(like: (string, string) -> bool, conditions: seq<Where>, row: Row) {
    EvalAnd(like, conditions, row).True?
  }

  lemma {:induction false} HoldsSplits(like: (string, string) -> bool, a: seq<Where>, b: seq<Where>, row: Row)
    ensures Holds(like, a + b, row) <==> Holds(like, a, row) && Holds(like, b, row)
  {
    if a == [] {
      assert a + b == b;
    } else {
      assert (a + b)[1..] == a[1..] + b;
      HoldsSplits(like, a[1..], b, row);
    }
  }

  lemma HoldsOne(like: (string, string) -> bool, w: Where, row: Row)
    ensures Holds(like, [w], row) <==> Selects(like, w, row)
  {
    assert EvalAnd(like, [w], row) == Both(Eval(like, w, row), EvalAnd(like, [w][1..], row));
  }

  lemma AndOfTwo(like: (string, string) -> bool, v: Where, w: Where, row: Row)
    ensures EvalAnd(like, [v, w], row) == Both(Eval(like, v, row), Eval(like, w, row))
  {
    assert [v, w][1..] == [w] && [w][1..] == [];
    assert EvalAnd(like, [w], row) == Both(Eval(like, w, row), EvalAnd(like, [], row));
  }

  lemma OrOfTwo(like: (string, string) -> bool, v: Where, w: Where, row: Row)
    ensures EvalOr(like, [v, w], row) == Either(Eval(like, v, row), Eval(like, w, row))
  {
    assert [v, w][1..] == [w] && [w][1..] == [];
    assert EvalOr(like, [w], row) == Either(Eval(like, w, row), EvalOr(like, [], row));
  }

  lemma OrOfThree(like: (string, string) -> bool, u: Where, v: Where, w: Where, row: Row)
    ensures EvalOr(like, [u, v, w], row) == Either(Eval(like, u, row), Either(Eval(like, v, row), Eval(like, w, row)))
  {
    assert [u, v, w][1..] == [v, w];
    OrOfTwo(like, v, w, row);
  }

  lemma BaseSelects(like: (string, string) -> bool, row: Row)
    ensures Holds(like, [Equals(TypeColumn, Type(AppType.Individual)), Equals(TargetLevelColumn, OfLevel(Level.City)),
                         WorkspaceIs(SchoolWorkspace, true)], row)
            <==> row.appType.Individual? && row.targetLevel.City? && row.school.kind.SchoolWorkspace?
                 && row.school.active
  {
    var level, school := Equals(TargetLevelColumn, OfLevel(Level.City)), WorkspaceIs(SchoolWorkspace, true);
    assert [Equals(TypeColumn, Type(AppType.Individual)), level, school][1..] == [level, school];
    AndOfTwo(like, level, school, row);
  }

  lemma WhenSelects(like: (string, string) -> bool, applies: bool, w: Where, row: Row)
    ensures Holds(like, When(applies, w), row) <==> (applies ==> Selects(like, w, row))
  {
    HoldsOne(like, w, row);
  }

  lemma ScopeSelects(like: (string, string) -> bool, year: string, workspaceId: Option<Id>, status: Option<AppStatus>,
                     lifecycle: Lifecycle, row: Row)
    ensures Holds(like, CityApplicationWhere(year, workspaceId, status, lifecycle), row)
            <==> Concerns(year, workspaceId, status, row) && InLifecycle(lifecycle, row)
  {
    hide Holds;
    var base := [Equals(TypeColumn, Type(AppType.Individual)), Equals(TargetLevelColumn, OfLevel(Level.City)),
                 WorkspaceIs(SchoolWorkspace, true)];
    var id := if workspaceId.Some? then workspaceId.value else "";
    var bySchool := When(workspaceId.Some? && workspaceId.value != "", Equals(WorkspaceIdColumn, Text(id)));
    var byYear := When(year != "", Equals(SchoolYearColumn, Text(year)));
    var alive := When(lifecycle.Active?, IsNull(CancelledAtColumn));
    var dead := When(lifecycle.Cancelled?, IsNotNull(CancelledAtColumn));
    var byStatus := if status.Some? then [Equals(StatusColumn, Status(status.value))] else [];
    HoldsSplits(like, base + alive + dead + byYear + bySchool, byStatus, row);
    HoldsSplits(like, base + alive + dead + byYear, bySchool, row);
    HoldsSplits(like, base + alive + dead, byYear, row);
    HoldsSplits(like, base + alive, dead, row);
    HoldsSplits(like, base, alive, row);
    BaseSelects(like, row);
    WhenSelects(like, lifecycle.Active?, IsNull(CancelledAtColumn), row);
    WhenSelects(like, lifecycle.Cancelled?, IsNotNull(CancelledAtColumn), row);
    WhenSelects(like, year != "", Equals(SchoolYearColumn, Text(year)), row);
    WhenSelects(like, workspaceId.Some? && workspaceId.value != "", Equals(WorkspaceIdColumn, Text(id)), row);
    var hasStatus := if status.Some? then Equals(StatusColumn, Status(status.value)) else IsNull(StatusColumn);
    WhenSelects(like, status.Some?, hasStatus, row);
    hide When;
  }

  lemma FailedFilterMeans(like: (string, string) -> bool, row: Row)
    ensures Selects(like, FAILED_FILTER, row)
            <==> row.finalStatus.Failed? || row.finalStatus.PartiallyPassed?
                 || (row.finalStatus.Passed? && row.finalLevel != Some(Level.City))
  {
    var passed, city := Equals(FinalStatusColumn, Final(FinalStatus.Passed)), OfLevel(Level.City);
    var elsewhere := Or([Differs(FinalLevelColumn, city), IsNull(FinalLevelColumn)]);
    OrOfTwo(like, Differs(FinalLevelColumn, city), IsNull(FinalLevelColumn), row);
    AndOfTwo(like, passed, elsewhere, row);
    OrOfThree(like, Equals(FinalStatusColumn, Final(FinalStatus.Failed)),
              Equals(FinalStatusColumn, Final(FinalStatus.PartiallyPassed)), And([passed, elsewhere]), row);
  }

  lemma FinalFilterMeans(like: (string, string) -> bool, finalStatus: FinalStatus, row: Row)
    ensures Selects(like, FinalFilter(finalStatus), row)
            <==> CityResult(row.finalStatus, row.finalLevel)
                 == if finalStatus.PartiallyPassed? then FinalStatus.Failed else finalStatus
  {
    AndOfTwo(like, Equals(FinalStatusColumn, Final(FinalStatus.Passed)), Equals(FinalLevelColumn, OfLevel(Level.City)),
             row);
    FailedFilterMeans(like, row);
  }

  /** A filter that is never unknown can be negated. */
  lemma InReviewFilterMeans(like: (string, string) -> bool, row: Row)
    ensures Eval(like, IN_REVIEW_FILTER, row) == Of(IsInReview(row))
  {
    AndOfTwo(like, IsNotNull(SubmittedAtColumn),
             In(StatusColumn, [Status(AppStatus.Submitted), Status(AppStatus.UnderReview)]), row);
  }

  lemma SupplementFilterMeans(like: (string, string) -> bool, row: Row)
    ensures Eval(like, SUPPLEMENT_FILTER, row) == Of(IsSupplementRequired(row))
  {
    OrOfTwo(like, Equals(StatusColumn, Status(AppStatus.SupplementRequired)),
            SomeTask(None, Some(TaskStatus.SupplementRequired)), row);
    assert forall t: TaskRow ::
        (TaskMatches(t, None, Some(TaskStatus.SupplementRequired)) <==> t.status.SupplementRequired?);
  }

  lemma ResolutionFilterMeans(like: (string, string) -> bool, row: Row)
    ensures Eval(like, RESOLUTION_FILTER, row) == Of(IsResolutionBlocked(row))
  {
    OrOfThree(like, Equals(StatusColumn, Status(AppStatus.ResolutionNeeded)),
              SomeTask(None, Some(TaskStatus.ResolutionNeeded)),
              SomeCase([ResolutionStatus.Open, ResolutionStatus.InReview]), row);
    assert forall t: TaskRow :: TaskMatches(t, None, Some(TaskStatus.ResolutionNeeded)) <==> t.status.ResolutionNeeded?;
  }

  lemma SearchFilterMeans(like: (string, string) -> bool, part: string, row: Row)
    ensures Selects(like, SearchFilter(part), row) <==> Found(like, part, row)
  {
    var a, b, c, d := Contains(FullNameColumn, part), Contains(StudentCodeColumn, part),
      Contains(SchoolNameColumn, part),
                      Contains(SchoolCodeColumn, part);
    assert [a, b, c, d][1..] == [b, c, d];
    OrOfThree(like, b, c, d, row);
    assert EvalOr(like, [a, b, c, d], row) == Either(Eval(like, a, row), EvalOr(like, [b, c, d], row));
  }

  function SignedFilter(wanted: Option<bool>, w: Where): seq<Where> {
    if wanted.Some? then [Sign(wanted.value, w)] else []
  }

  lemma SignedFilterMeans(like: (string, string) -> bool, wanted: Option<bool>, w: Where, meaning: bool, row: Row)
    requires Eval(like, w, row) == Of(meaning)
    ensures Holds(like, SignedFilter(wanted, w), row) <==> (wanted.Some? ==> meaning == wanted.value)
  {
    HoldsOne(like, w, row);
    HoldsOne(like, Not(w), row);
  }

  /** The parts of the list's condition, in the order they are added. */
  function FinalPart(query: Query): seq<Where> {
    if query.finalStatus.Some? then [FinalFilter(query.finalStatus.value)] else []
  }

  function SubmittedPart(query: Query): seq<Where> {
    if query.submitted.Some? then [SubmittedFilter(query.submitted.value)] else []
  }

  function SearchPart(query: Query): seq<Where> {
    if query.q.Some? && query.q.value != "" then [SearchFilter(query.q.value)] else []
  }

  lemma PartsMean(like: (string, string) -> bool, query: Query, row: Row)
    ensures Holds(like, FinalPart(query), row)
            <==> (query.finalStatus.Some? ==>
                    CityResult(row.finalStatus, row.finalLevel)
                    == if query.finalStatus.value.PartiallyPassed? then FinalStatus.Failed else query.finalStatus.value)
    ensures Holds(like, SubmittedPart(query), row)
            <==> (query.submitted.Some? ==> IsSubmitted(row) == query.submitted.value)
    ensures Holds(like, SearchPart(query), row)
            <==> (query.q.Some? && query.q.value != "" ==> Found(like, query.q.value, row))
  {
    hide FinalFilter, SearchFilter, Found, CityResult;
    if query.finalStatus.Some? {
      FinalFilterMeans(like, query.finalStatus.value, row);
      HoldsOne(like, FinalFilter(query.finalStatus.value), row);
    }
    if query.submitted.Some? {
      HoldsOne(like, SubmittedFilter(query.submitted.value), row);
    }
    if query.q.Some? {
      SearchFilterMeans(like, query.q.value, row);
      HoldsOne(like, SearchFilter(query.q.value), row);
    }
  }

  lemma TaskFilterMeans(like: (string, string) -> bool, criterion: Option<Criterion>, status: Option<TaskStatus>,
                        row: Row)
    ensures Selects(like, SomeTask(criterion, status), row)
            <==> exists t :: t in row.tasks && criterion in {None, Some(t.criterion)}
                             && status in {None, Some(t.status)}
  {
    assert forall t: TaskRow ::
      TaskMatches(t, criterion, status) <==> criterion in {None, Some(t.criterion)} && status in {None, Some(t.status)};
  }

  /** The database selects exactly the rows the in-memory predicates accept, missing values included. */
  lemma ListSelectsIff(like: (string, string) -> bool, query: Query, row: Row)
    ensures Selects(like, ListWhere(query), row) <==> Accepts(like, query, row)
  {
    InReviewFilterMeans(like, row);
    SupplementFilterMeans(like, row);
    ResolutionFilterMeans(like, row);
    var scope := CityApplicationWhere(query.schoolYear, query.workspaceId, query.status, Active);
    var tasks := SomeTask(query.criterion, query.taskStatus);
    TaskFilterMeans(like, query.criterion, query.taskStatus, row);
    hide FinalPart, SubmittedPart, SearchPart, CityApplicationWhere, Concerns, Found, CityResult, IsSubmitted,
      IsInReview, IsSupplementRequired, IsResolutionBlocked, SignedFilter, When, Holds, Selects, ListWhere;
    SignedFilterMeans(like, query.inReview, IN_REVIEW_FILTER, IsInReview(row), row);
    SignedFilterMeans(like, query.supplementRequired, SUPPLEMENT_FILTER, IsSupplementRequired(row), row);
    SignedFilterMeans(like, query.resolutionBlocked, RESOLUTION_FILTER, IsResolutionBlocked(row), row);
    PartsMean(like, query, row);
    ScopeSelects(like, query.schoolYear, query.workspaceId, query.status, Active, row);
    WhenSelects(like, query.criterion.Some? || query.taskStatus.Some?, tasks, row);
    SevenPartsHold(like, scope, query, row);
  }

  lemma SevenPartsHold(like: (string, string) -> bool, scope: seq<Where>, query: Query, row: Row)
    requires scope == CityApplicationWhere(query.schoolYear, query.workspaceId, query.status, Active)
    ensures Selects(like, ListWhere(query), row)
            <==> && Holds(like, scope, row) && Holds(like, FinalPart(query), row)
                 && Holds(like, SubmittedPart(query), row)
                 && Holds(like, SignedFilter(query.inReview, IN_REVIEW_FILTER), row)
                 && Holds(like, When(query.criterion.Some? || query.taskStatus.Some?,
                                     SomeTask(query.criterion, query.taskStatus)), row)
                 && Holds(like, SearchPart(query), row)
                 && Holds(like, SignedFilter(query.supplementRequired, SUPPLEMENT_FILTER), row)
                 && Holds(like, SignedFilter(query.resolutionBlocked, RESOLUTION_FILTER), row)
  {
    hide FinalPart, SubmittedPart, SearchPart, CityApplicationWhere, SignedFilter, When;
    var a := scope + FinalPart(query);
    var b := a + SubmittedPart(query);
    var c := b + SignedFilter(query.inReview, IN_REVIEW_FILTER);
    var d := c + When(query.criterion.Some? || query.taskStatus.Some?, SomeTask(query.criterion, query.taskStatus));
    var e := d + SearchPart(query);
    var f := e + SignedFilter(query.supplementRequired, SUPPLEMENT_FILTER);
    HoldsSplits(like, scope, FinalPart(query), row);
    HoldsSplits(like, a, SubmittedPart(query), row);
    HoldsSplits(like, b, SignedFilter(query.inReview, IN_REVIEW_FILTER), row);
    HoldsSplits(like, c,
                When(query.criterion.Some? || query.taskStatus.Some?, SomeTask(query.criterion, query.taskStatus)),
                row);
    HoldsSplits(like, d, SearchPart(query), row);
    HoldsSplits(like, e, SignedFilter(query.supplementRequired, SUPPLEMENT_FILTER), row);
    HoldsSplits(like, f, SignedFilter(query.resolutionBlocked, RESOLUTION_FILTER), row);
  }

  /** Why the failed filter names the missing level: without that branch it loses exactly the passed
      applications that have none. */
  lemma MissingLevelIsLostIff(like: (string, string) -> bool, row: Row)
    ensures var bare := And([Equals(FinalStatusColumn, Final(FinalStatus.Passed)),
                             Differs(FinalLevelColumn, OfLevel(Level.City))]);
            var full := And([Equals(FinalStatusColumn, Final(FinalStatus.Passed)),
                             Or([Differs(FinalLevelColumn, OfLevel(Level.City)), IsNull(FinalLevelColumn)])]);
            Selects(like, bare, row) != Selects(like, full, row) <==> row.finalStatus.Passed? && row.finalLevel.None?
  {
    var passed, other := Equals(FinalStatusColumn, Final(FinalStatus.Passed)),
      Differs(FinalLevelColumn, OfLevel(Level.City));
    AndOfTwo(like, passed, other, row);
    OrOfTwo(like, other, IsNull(FinalLevelColumn), row);
    AndOfTwo(like, passed, Or([other, IsNull(FinalLevelColumn)]), row);
  }
}
