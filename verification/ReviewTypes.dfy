/** The enumerations of the review workflow's database schema, and the optional value. */
module ReviewTypes {
  type Id = string

  /** Milliseconds since the epoch. */
  type Time = int

  datatype Option<+T> = None | Some(value: T)

  datatype Role = Student | Officer | Manager | CityManager | CityCommittee | Admin

  datatype Actor = Actor(id: Id, role: Role)

  datatype WorkspaceKind = CityWorkspace | UniversitySystem | SchoolWorkspace

  datatype AppType = Individual | Collective

  datatype Level = School | University | City | Central

  datatype Criterion = Ethics | Academic | Physical | Volunteer | Integration | Priority | Collective

  datatype AppStatus =
    | NotStarted | Draft | Prechecked | ReadyToSubmit | Submitted | SupplementRequired
    | UnderReview | ResolutionNeeded | Completed | Rejected

  datatype FinalStatus = Pending | Passed | Failed | PartiallyPassed

  datatype TaskStatus = Waiting | Reviewing | SupplementRequired | Accepted | Rejected | ResolutionNeeded

  datatype EvidenceStatus =
    | Draft | PendingIndexing | Indexed | NeedsSupplement | UnderReview | Accepted | Rejected | ResolutionNeeded

  datatype IndexingStatus =
    | NotStarted | Uploaded | PendingIndexing | OcrProcessing | Extracting | CheckingRegistry
    | Indexed | Failed | NeedsManualReview

  datatype ResolutionStatus = Open | InReview | Resolved | Rejected

  /** The five criteria every City application is reviewed on. */
  const CORE_CRITERIA: seq<Criterion> :=
    [Criterion.Ethics, Criterion.Academic, Criterion.Physical, Criterion.Volunteer, Criterion.Integration]
}
