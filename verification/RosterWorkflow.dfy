/** The award decision and its roster: uploads, processing, preview edits, confirmation, archiving.
    Requests on one decision run one after the other. */
module RosterWorkflow {
  import opened ReviewTypes
  import opened Text
  import opened RosterLogic
  import opened StoredCorrections

  datatype DecisionStatus = DraftDecision | ConfirmedDecision | ArchivedDecision

  datatype JobStatus = Queued | Processing | Completed | Failed

  /** The stored result of a finished job: its file, its table, the edits, and the preview rows. */
  datatype Result = Result(
    rosterFile: Id, columns: seq<string>, sourceRows: seq<SourceRow>, mapping: Mapping,
    corrections: map<string, StoredValue>, preview: Preview)

  datatype Job = Job(inputFile: Id, status: JobStatus, result: Option<Result>)

  datatype Recipient = Recipient(
    studentCode: Option<string>, fullName: Option<string>, institutionId: Option<Id>, className: Option<string>,
    matchedUser: Option<Id>, matchStatus: MatchStatus, sourceRow: nat)

  /** What a manager types in about a decision. */
  datatype Details = Details(schoolYear: string, decisionNumber: Option<string>, decisionDate: Option<Time>)

  /** An edit gives some of the details; a number or a date may be given as null. */
  datatype DetailsEdit = DetailsEdit(
    schoolYear: Option<string>, decisionNumber: Option<Option<string>>, decisionDate: Option<Option<Time>>)

  /** `jobs` are in order of creation. */
  datatype DecisionState = DecisionState(
    status: DecisionStatus, details: Details, decisionFile: Option<Id>, rosterFile: Option<Id>,
    confirmedAt: Option<Time>, confirmedBy: Option<Id>, jobs: seq<Job>, recipients: seq<Recipient>)

  datatype ErrorCode = Conflict | MissingRoster | MappingInvalid | RowNotFound | EmptyCorrection | NotAllValid

  datatype Outcome = Outcome(state: DecisionState, error: Option<ErrorCode>)

  function Refuse(s: DecisionState, code: ErrorCode): Outcome { Outcome(s, Some(code)) }

  function Commit(s: DecisionState): Outcome { Outcome(s, None) }

  function Created(details: Details): DecisionState {
    DecisionState(DraftDecision, details, None, None, None, None, [], [])
  }

  // ---------- Files and processing ----------

  function Update(edit: DetailsEdit, s: DecisionState): Outcome {
    if !s.status.DraftDecision? then Refuse(s, ErrorCode.Conflict)
    else Commit(s.(details := EditDetails(edit, s.details)))
  }

  /** Details that are not given stay as they are. */
  function EditDetails(edit: DetailsEdit, was: Details): Details {
    Details(
      if edit.schoolYear.Some? then edit.schoolYear.value else was.schoolYear,
      if edit.decisionNumber.Some? then edit.decisionNumber.value else was.decisionNumber,
      if edit.decisionDate.Some? then edit.decisionDate.value else was.decisionDate)
  }

  function Upload(isRoster: bool, file: Id, s: DecisionState): Outcome {
    if !s.status.DraftDecision? then Refuse(s, ErrorCode.Conflict)
    else if isRoster then Commit(s.(rosterFile := Some(file)))
    else Commit(s.(decisionFile := Some(file)))
  }

  /** `read` is the decision as it was loaded, `look` as it was when its latest job was looked up: nothing is locked.
      A job of the loaded file is left alone unless it has failed; a retry that comes too late queues another. */
  function ProcessRoster(read: DecisionState, look: DecisionState, s: DecisionState): Outcome {
    if !read.status.DraftDecision? then Refuse(s, ErrorCode.Conflict)
    else if read.rosterFile.None? then Refuse(s, MissingRoster)
    else
      var last := |look.jobs| - 1;
      var found := last >= 0 && look.jobs[last].inputFile == read.rosterFile.value;
      if found && !look.jobs[last].status.Failed? then Commit(s)
      else if found && last < |s.jobs| && s.jobs[last].status.Failed? then
        Commit(s.(jobs := s.jobs[last := s.jobs[last].(status := Queued, result := None)]))
      else Commit(s.(jobs := s.jobs + [Job(read.rosterFile.value, Queued, None)]))
  }

  /** A worker takes a queued job. */
  function ClaimJob(k: nat, s: DecisionState): Outcome {
    if k >= |s.jobs| || !s.jobs[k].status.Queued? then Refuse(s, ErrorCode.Conflict)
    else Commit(s.(jobs := s.jobs[k := s.jobs[k].(status := Processing)]))
  }

  /** A job whose worker's lease has run out is queued again or given up. */
  function RecoverJob(k: nat, again: bool, s: DecisionState): Outcome {
    if k >= |s.jobs| || !s.jobs[k].status.Processing? then Refuse(s, ErrorCode.Conflict)
    else
      var status := if again then Queued else JobStatus.Failed;
      Commit(s.(jobs := s.jobs[k := s.jobs[k].(status := status, result := None)]))
  }

  /** What the worker reads from the file: a table and the suggested mapping, or nothing usable. */
  datatype ParsedTable = ParsedTable(columns: seq<string>, sourceRows: seq<SourceRow>, mapping: Mapping)

  /** What a worker makes of a job whose decision it read: a result, or a failure that may be tried again. */
  function Processed(job: Job, parsed: Option<ParsedTable>, again: bool, ctx: Context, read: DecisionState): Job {
    if !read.status.DraftDecision? || read.rosterFile != Some(job.inputFile) then
      job.(status := JobStatus.Failed, result := None)
    else if parsed.None? || parsed.value.columns == [] then
      job.(status := if again then Queued else JobStatus.Failed, result := None)
    else
      var t := parsed.value;
      var preview := BuildPreview(Sheet(t.columns, t.sourceRows, t.mapping, map[]), ctx);
      Job(job.inputFile, JobStatus.Completed,
          Some(Result(job.inputFile, t.columns, t.sourceRows, t.mapping, map[], preview)))
  }

  /** The worker stores what it made, whatever the job or the decision has become. */
  function FinishJob(k: nat, parsed: Option<ParsedTable>, again: bool, ctx: Context, read: DecisionState,
                     s: DecisionState): Outcome
  {
    if k >= |s.jobs| then Refuse(s, ErrorCode.Conflict)
    else Commit(s.(jobs := s.jobs[k := Processed(s.jobs[k], parsed, again, ctx, read)]))
  }

  // ---------- Preview edits ----------

  datatype Change =
    | SetMapping(mapping: Mapping)
    | Correct(sourceRow: nat, correction: Correction)
    | Revert(sourceRow: nat)

  /** The latest job, if it has finished the current roster file. */
  predicate HasCurrentResult(s: DecisionState) {
    && s.rosterFile.Some? && |s.jobs| > 0
    && var job := s.jobs[|s.jobs| - 1];
       job.status.Completed? && job.inputFile == s.rosterFile.value
       && job.result.Some? && job.result.value.rosterFile == s.rosterFile.value
  }

  function CurrentResult(s: DecisionState): Result
    requires HasCurrentResult(s)
  {
    s.jobs[|s.jobs| - 1].result.value
  }

  function SheetOf(r: Result): Sheet {
    Sheet(r.columns, r.sourceRows, r.mapping, ParseCorrections(r.corrections))
  }

  predicate HasRow(rows: seq<PreviewRow>, n: nat) {
    exists i :: 0 <= i < |rows| && rows[i].sourceRow == n
  }

  function ChangeSheet(sheet: Sheet, change: Change, ctx: Context): (result: (Sheet, Option<ErrorCode>)) {
    match change
    case SetMapping(mapping) =>
      if ValidMapping(sheet.columns, mapping) then (sheet.(mapping := mapping), None) else (sheet, Some(MappingInvalid))
    case Correct(n, correction) =>
      if !HasRow(BuildPreview(sheet, ctx).rows, n) then (sheet, Some(RowNotFound))
      else if correction == NO_CORRECTION then (sheet, Some(EmptyCorrection))
      else (sheet.(corrections := sheet.corrections[Decimal(n) := Merge(CorrectionAt(sheet, n), correction)]), None)
    case Revert(n) =>
      if !HasRow(BuildPreview(sheet, ctx).rows, n) then (sheet, Some(RowNotFound))
      else if CorrectionAt(sheet, n) == NO_CORRECTION then (sheet, Some(ErrorCode.Conflict))
      else (sheet.(corrections := sheet.corrections - {Decimal(n)}), None)
  }

  /** The finished job k of the given file can be edited: the decision is a draft and the file is its roster. */
  predicate Editable(k: nat, file: Id, s: DecisionState) {
    && s.status.DraftDecision? && s.rosterFile == Some(file) && k < |s.jobs|
    && s.jobs[k].status.Completed? && s.jobs[k].inputFile == file
    && s.jobs[k].result.Some? && s.jobs[k].result.value.rosterFile == file
  }

  /** The edit under the lock. */
  function EditPreview(k: nat, file: Id, change: Change, ctx: Context, s: DecisionState): Outcome {
    if !Editable(k, file, s) then Refuse(s, ErrorCode.Conflict)
    else
      var r := s.jobs[k].result.value;
      var (sheet, error) := ChangeSheet(SheetOf(r), change, ctx);
      if error.Some? then Refuse(s, error.value)
      else
        var r' := r.(mapping := sheet.mapping, corrections := StoreCorrections(sheet.corrections),
                     preview := BuildPreview(sheet, ctx));
        Commit(s.(jobs := s.jobs[k := s.jobs[k].(result := Some(r'))]))
  }

  /** Which job is edited was decided on an earlier read. */
  function UpdatePreview(change: Change, ctx: Context, read: DecisionState, s: DecisionState): Outcome {
    if !read.status.DraftDecision? || !HasCurrentResult(read) then Refuse(s, ErrorCode.Conflict)
    else if change.SetMapping? && !ValidMapping(CurrentResult(read).columns, change.mapping) then
      Refuse(s, MappingInvalid)
    else EditPreview(|read.jobs| - 1, read.rosterFile.value, change, ctx, s)
  }

  // ---------- Confirmation ----------

  function LatestCompleted(jobs: seq<Job>): (k: Option<nat>)
    ensures k.Some? ==> k.value < |jobs| && jobs[k.value].status.Completed?
    ensures k.Some? ==> forall j :: k.value < j < |jobs| ==> !jobs[j].status.Completed?
    ensures k.None? ==> forall j :: 0 <= j < |jobs| ==> !jobs[j].status.Completed?
  {
    if jobs == [] then None
    else if jobs[|jobs| - 1].status.Completed? then Some(|jobs| - 1)
    else
      var init := jobs[..|jobs| - 1];
      assert forall j :: 0 <= j < |init| ==> init[j] == jobs[j];
      LatestCompleted(init)
  }

  function ToRecipient(row: PreviewRow): Recipient {
    Recipient(row.fields.studentCode, row.fields.fullName, row.institutionId, row.fields.className,
              row.matchedUser, row.matchStatus, row.sourceRow)
  }

  function ToRecipients(rows: seq<PreviewRow>): (recipients: seq<Recipient>)
    ensures |recipients| == |rows|
    ensures forall i :: 0 <= i < |rows| ==> recipients[i] == ToRecipient(rows[i])
  {
    seq(|rows|, i requires 0 <= i < |rows| => ToRecipient(rows[i]))
  }

  predicate AllValid(rows: seq<PreviewRow>) {
    forall i :: 0 <= i < |rows| ==> rows[i].status.Valid?
  }

  /** The sheet a confirmation would freeze. */
  function ConfirmableSheet(s: DecisionState): Option<Sheet> {
    if !s.status.DraftDecision? || s.rosterFile.None? then None
    else
      var k := LatestCompleted(s.jobs);
      if k.None? then None
      else
        var job := s.jobs[k.value];
        if job.inputFile == s.rosterFile.value && job.result.Some? && job.result.value.rosterFile == s.rosterFile.value
        then Some(SheetOf(job.result.value)) else None
  }

  function Confirm(actor: Id, now: Time, ctx: Context, s: DecisionState): Outcome {
    var sheet := ConfirmableSheet(s);
    if sheet.None? then Refuse(s, ErrorCode.Conflict)
    else
      var rows := BuildPreview(sheet.value, ctx).rows;
      if rows == [] || !AllValid(rows) then Refuse(s, NotAllValid)
      else Commit(s.(status := ConfirmedDecision, confirmedBy := Some(actor), confirmedAt := Some(now),
                     recipients := s.recipients + ToRecipients(rows)))
  }

  // ---------- Archiving ----------

  function Archive(s: DecisionState): Outcome {
    if s.status.ArchivedDecision? then Refuse(s, ErrorCode.Conflict) else Commit(s.(status := ArchivedDecision))
  }

  /** The status to restore is chosen from what the request read before its transaction. */
  function Unarchive(read: DecisionState, s: DecisionState): Outcome {
    if !read.status.ArchivedDecision? || !s.status.ArchivedDecision? then Refuse(s, ErrorCode.Conflict)
    else Commit(s.(status := if read.confirmedAt.Some? then ConfirmedDecision else DraftDecision))
  }

  // ---------- Runs ----------

  datatype Event =
    | EvUpdate(edit: DetailsEdit)
    | EvUpload(isRoster: bool, file: Id)
    | EvProcess(read: DecisionState, look: DecisionState)
    | EvClaimJob(job: nat)
    | EvRecoverJob(job: nat, again: bool)
    | EvFinishJob(job: nat, parsed: Option<ParsedTable>, again: bool, jobCtx: Context, read: DecisionState)
    | EvPreview(change: Change, ctx: Context, read: DecisionState)
    | EvConfirm(actor: Id, now: Time, confirmCtx: Context)
    | EvArchive
    | EvUnarchive(read: DecisionState)

  function Perform(e: Event, s: DecisionState): Outcome {
    match e
    case EvUpdate(edit) => Update(edit, s)
    case EvUpload(isRoster, file) => Upload(isRoster, file, s)
    case EvProcess(read, look) => ProcessRoster(read, look, s)
    case EvClaimJob(k) => ClaimJob(k, s)
    case EvRecoverJob(k, again) => RecoverJob(k, again, s)
    case EvFinishJob(k, parsed, again, ctx, read) => FinishJob(k, parsed, again, ctx, read, s)
    case EvPreview(change, ctx, read) => UpdatePreview(change, ctx, read, s)
    case EvConfirm(actor, now, ctx) => Confirm(actor, now, ctx, s)
    case EvArchive => Archive(s)
    case EvUnarchive(read) => Unarchive(read, s)
  }

  /** What an event read before it commits was the decision at some earlier moment. */
  predicate ReadsFrom(e: Event, earlier: seq<DecisionState>) {
    match e
    case EvProcess(read, look) => read in earlier && look in earlier
    case EvFinishJob(_, _, _, _, read) => read in earlier
    case EvPreview(_, _, read) => read in earlier
    case EvUnarchive(read) => read in earlier
    case _ => true
  }

  /** A run from a new decision. Requests and workers may have done their reads at any earlier moments. */
  ghost predicate Run(states: seq<DecisionState>, events: seq<Event>) {
    && |states| == |events| + 1
    && (exists details :: states[0] == Created(details))
    && forall i :: 0 <= i < |events| ==> Follows(states, events, i)
  }

  ghost predicate Follows(states: seq<DecisionState>, events: seq<Event>, i: nat)
    requires i < |events| && |states| == |events| + 1
  {
    states[i + 1] == Perform(events[i], states[i]).state && ReadsFrom(events[i], states[..i + 1])
  }

  /** A committed restore saw the decision confirmed exactly if it is. One that reads and restores with
      nothing in between always does. */
  predicate RestoresRightly(e: Event, s: DecisionState) {
    e.EvUnarchive? && Perform(e, s).error.None? ==> e.read.confirmedAt.Some? == s.confirmedAt.Some?
  }

  ghost predicate RightRun(states: seq<DecisionState>, events: seq<Event>) {
    Run(states, events) && forall i :: 0 <= i < |events| ==> RestoresRightly(events[i], states[i])
  }

  /** Confirmed means `confirmedAt` is set, draft means it is not, and only a confirmed decision has recipients. */
  predicate Consistent(s: DecisionState) {
    && (s.status.ConfirmedDecision? ==> s.confirmedAt.Some?)
    && (s.status.DraftDecision? ==> s.confirmedAt.None?)
    && (s.confirmedAt.None? ==> s.recipients == [])
  }

  lemma StepIsConsistentIff(e: Event, s: DecisionState)
    requires Consistent(s)
    ensures Consistent(Perform(e, s).state) <==> RestoresRightly(e, s)
  {
    hide BuildPreview;
  }

  lemma {:induction false} RunsAreConsistent(states: seq<DecisionState>, events: seq<Event>, i: nat)
    requires RightRun(states, events) && i < |states|
    ensures Consistent(states[i])
  {
    if i > 0 {
      RunsAreConsistent(states, events, i - 1);
      assert Follows(states, events, i - 1);
      StepIsConsistentIff(events[i - 1], states[i - 1]);
    }
  }

  /** A run keeps status and confirmation time consistent exactly if no restore acts on an outdated read. */
  lemma RunIsConsistentIff(states: seq<DecisionState>, events: seq<Event>)
    requires Run(states, events)
    ensures (forall i :: 0 <= i < |states| ==> Consistent(states[i])) <==> RightRun(states, events)
  {
    if RightRun(states, events) {
      forall i | 0 <= i < |states| ensures Consistent(states[i]) {
        RunsAreConsistent(states, events, i);
      }
    } else {
      var i :| 0 <= i < |events| && !RestoresRightly(events[i], states[i]);
      assert Follows(states, events, i);
      if Consistent(states[i]) {
        StepIsConsistentIff(events[i], states[i]);
      }
    }
  }

  /** What an outdated read can do: an archived draft is restored, confirmed and archived again, and a
      second restore that read the draft lets it be confirmed once more, which stores every recipient twice. */
  lemma StaleRestoreConfirmsTwice(s: DecisionState, who: Id, now: Time, later: Time, ctx: Context)
    requires s.status.ArchivedDecision? && Consistent(s) && s.confirmedAt.None?
    requires Confirm(who, now, ctx, Unarchive(s, s).state).error.None?
    ensures var confirmed := Confirm(who, now, ctx, Unarchive(s, s).state).state;
            var reopened := Unarchive(s, Archive(confirmed).state);
            var again := Confirm(who, later, ctx, reopened.state);
            && reopened.error.None? && again.error.None?
            && again.state.recipients == confirmed.recipients + confirmed.recipients
            && confirmed.recipients != []
  {
    hide BuildPreview, LatestCompleted;
  }

  predicate Confirms(states: seq<DecisionState>, events: seq<Event>, i: nat)
    requires i < |events| && |states| == |events| + 1
  {
    events[i].EvConfirm? && Perform(events[i], states[i]).error.None?
  }

  /** Everything a confirmation settles. */
  predicate SameConfirmation(a: DecisionState, b: DecisionState) {
    && a.confirmedAt == b.confirmedAt && a.confirmedBy == b.confirmedBy && a.recipients == b.recipients
    && a.rosterFile == b.rosterFile && a.decisionFile == b.decisionFile && a.details == b.details
  }

  /** Once confirmed, the recipients, the files and the details stay as they are for good. */
  lemma {:induction false} ConfirmationIsForever(states: seq<DecisionState>, events: seq<Event>, i: nat, j: nat)
    requires RightRun(states, events) && i <= j < |states|
    requires states[i].confirmedAt.Some?
    ensures SameConfirmation(states[i], states[j])
  {
    hide BuildPreview;
    if i < j {
      ConfirmationIsForever(states, events, i, j - 1);
      RunsAreConsistent(states, events, j - 1);
      assert Follows(states, events, j - 1);
    }
  }

  /** A finished job of a confirmed decision changes exactly if a worker that had also taken it finishes late with
      another result. */
  lemma FinishedJobStaysIff(e: Event, s: DecisionState, k: nat)
    requires Consistent(s) && s.confirmedAt.Some? && k < |s.jobs| && s.jobs[k].status.Completed?
    ensures k < |Perform(e, s).state.jobs|
    ensures Perform(e, s).state.jobs[k] == s.jobs[k]
            <==> !(e.EvFinishJob? && e.job == k
                   && Processed(s.jobs[k], e.parsed, e.again, e.jobCtx, e.read) != s.jobs[k])
  {
    hide BuildPreview, Processed;
  }

  /** A decision is confirmed at most once. */
  lemma ConfirmedAtMostOnce(states: seq<DecisionState>, events: seq<Event>, i: nat, j: nat)
    requires RightRun(states, events) && i < j < |events|
    requires Confirms(states, events, i)
    ensures !Confirms(states, events, j)
  {
    hide BuildPreview;
    assert Follows(states, events, i);
    ConfirmationIsForever(states, events, i + 1, j);
    RunsAreConsistent(states, events, j);
  }

  /** The recipient is what the preview row says, field by field. */
  predicate Records(r: Recipient, row: PreviewRow) {
    && r.studentCode == row.fields.studentCode && r.fullName == row.fields.fullName
    && r.className == row.fields.className && r.institutionId == row.institutionId
    && r.matchedUser == row.matchedUser && r.matchStatus == row.matchStatus && r.sourceRow == row.sourceRow
  }

  ghost predicate RecordsAll(recipients: seq<Recipient>, rows: seq<PreviewRow>) {
    |recipients| == |rows| && forall k :: 0 <= k < |rows| ==> Records(recipients[k], rows[k])
  }

  lemma RecipientsRecord(rows: seq<PreviewRow>)
    ensures RecordsAll(ToRecipients(rows), rows)
  {
  }

  /** The latest completed job has finished the roster file of a draft. */
  ghost predicate FreezesJob(s: DecisionState, k: nat) {
    && s.status == DraftDecision && s.rosterFile.Some? && k < |s.jobs| && s.jobs[k].status == JobStatus.Completed
    && (forall j :: k < j < |s.jobs| ==> s.jobs[j].status != JobStatus.Completed)
    && s.jobs[k].inputFile == s.rosterFile.value
    && s.jobs[k].result.Some? && s.jobs[k].result.value.rosterFile == s.rosterFile.value
  }

  /** Its table, with the mapping and corrections stored beside it. */
  ghost function FrozenTable(s: DecisionState, k: nat): Sheet
    requires FreezesJob(s, k)
  {
    var r := s.jobs[k].result.value;
    Sheet(r.columns, r.sourceRows, r.mapping, ParseCorrections(r.corrections))
  }

  lemma ConfirmableSheetIff(s: DecisionState, k: nat)
    ensures FreezesJob(s, k) ==> ConfirmableSheet(s) == Some(FrozenTable(s, k))
    ensures ConfirmableSheet(s).Some? ==> exists m :: FreezesJob(s, m)
  {
    if ConfirmableSheet(s).Some? {
      assert FreezesJob(s, LatestCompleted(s.jobs).value);
    }
  }

  predicate HasOnlyValidRows(rows: seq<PreviewRow>) {
    rows != [] && forall i :: 0 <= i < |rows| ==> rows[i].status == RowStatus.Valid
  }

  /** A confirmation commits exactly if the latest completed job of the draft has finished its roster file and the
      preview of its table, computed anew, has rows, all of them valid. It stores who confirmed and when, and appends
      one recipient for each row with just what the row says; it leaves the rest. */
  lemma ConfirmCommitsIff(actor: Id, now: Time, ctx: Context, s: DecisionState)
    ensures var outcome := Confirm(actor, now, ctx, s);
            && (outcome.error.None?
                <==> exists k :: FreezesJob(s, k) && HasOnlyValidRows(BuildPreview(FrozenTable(s, k), ctx).rows))
            && (outcome.error.Some? ==> outcome.state == s)
            && (outcome.error.None? ==>
                  && outcome.state == s.(status := ConfirmedDecision, confirmedAt := Some(now),
                                         confirmedBy := Some(actor), recipients := outcome.state.recipients)
                  && s.recipients <= outcome.state.recipients
                  && forall k :: FreezesJob(s, k) ==>
                       RecordsAll(outcome.state.recipients[|s.recipients|..],
                                  BuildPreview(FrozenTable(s, k), ctx).rows))
  {
    hide BuildPreview, ConfirmableSheet, FreezesJob, FrozenTable, ToRecipients, RecordsAll, LatestCompleted;
    forall k ensures FreezesJob(s, k) ==> ConfirmableSheet(s) == Some(FrozenTable(s, k)) {
      ConfirmableSheetIff(s, k);
    }
    if ConfirmableSheet(s).Some? {
      ConfirmableSheetIff(s, 0);
      var m :| FreezesJob(s, m);
      var rows := BuildPreview(ConfirmableSheet(s).value, ctx).rows;
      RecipientsRecord(rows);
      assert (s.recipients + ToRecipients(rows))[|s.recipients|..] == ToRecipients(rows);
    }
  }

  /** From a confirmation on, the recipients are one-to-one with the rows of the preview it computed
      from the finished job of the current roster file: each says what its row says, in file order and pairwise
      distinct by institution and student code. */
  lemma RecipientsAreTheConfirmedRows(states: seq<DecisionState>, events: seq<Event>, i: nat, j: nat)
    requires RightRun(states, events) && i < j < |states|
    requires Confirms(states, events, i) && NulFreeContext(events[i].confirmCtx)
    ensures states[i].rosterFile == states[j].rosterFile
    ensures ConfirmableSheet(states[i]).Some?
    ensures var rows := BuildPreview(ConfirmableSheet(states[i]).value, events[i].confirmCtx).rows;
            AllValid(rows) && RecordsAll(states[j].recipients, rows)
    ensures forall a, b :: 0 <= a < b < |states[j].recipients| ==>
              DistinctRecipients(states[j].recipients[a], states[j].recipients[b])
  {
    ConfirmedRecipients(states, events, i, j);
    var rows := BuildPreview(ConfirmableSheet(states[i]).value, events[i].confirmCtx).rows;
    hide BuildPreview, Run, ToRecipients;
    RecipientsRecord(rows);
    DistinctRows(ConfirmableSheet(states[i]).value, events[i].confirmCtx);
  }

  lemma ConfirmedRecipients(states: seq<DecisionState>, events: seq<Event>, i: nat, j: nat)
    requires RightRun(states, events) && i < j < |states| && Confirms(states, events, i)
    ensures states[i].rosterFile == states[j].rosterFile && states[i].details == states[j].details
    ensures ConfirmableSheet(states[i]).Some?
    ensures var rows := BuildPreview(ConfirmableSheet(states[i]).value, events[i].confirmCtx).rows;
            AllValid(rows) && states[j].recipients == ToRecipients(rows)
  {
    hide BuildPreview;
    assert Follows(states, events, i);
    RunsAreConsistent(states, events, i);
    ConfirmationIsForever(states, events, i + 1, j);
  }

  predicate DistinctRecipients(a: Recipient, b: Recipient) {
    a.sourceRow < b.sourceRow && !(a.institutionId == b.institutionId && a.studentCode == b.studentCode)
  }

  lemma DistinctRows(sheet: Sheet, ctx: Context)
    requires NulFreeContext(ctx) && AllValid(BuildPreview(sheet, ctx).rows)
    ensures var recipients := ToRecipients(BuildPreview(sheet, ctx).rows);
            forall a, b :: 0 <= a < b < |recipients| ==> DistinctRecipients(recipients[a], recipients[b])
  {
    hide BuildPreview;
    var rows := BuildPreview(sheet, ctx).rows;
    RowIdsAreNulFree(sheet, ctx);
    forall a, b | 0 <= a < b < |rows| ensures DistinctRecipients(ToRecipient(rows[a]), ToRecipient(rows[b])) {
      ValidRowsAreDistinct(sheet, ctx, a, b);
    }
  }

  /** Archiving and then restoring a decision gives it back, whatever its status was. */
  lemma ArchiveThenUnarchiveRestores(states: seq<DecisionState>, events: seq<Event>, i: nat)
    requires RightRun(states, events) && i < |states| && !states[i].status.ArchivedDecision?
    ensures Archive(states[i]).error.None?
    ensures Unarchive(Archive(states[i]).state, Archive(states[i]).state) == Commit(states[i])
  {
    RunsAreConsistent(states, events, i);
  }

  // ---------- Corrections and reverts ----------

  /** The stored JSON of every result is one the API wrote. */
  predicate WellStored(s: DecisionState) {
    forall k :: 0 <= k < |s.jobs| && s.jobs[k].result.Some? ==>
      s.jobs[k].result.value.corrections == StoreCorrections(ParseCorrections(s.jobs[k].result.value.corrections))
  }

  lemma ChangedSheetIsStorable(sheet: Sheet, change: Change, ctx: Context)
    requires Storable(sheet.corrections)
    ensures Storable(ChangeSheet(sheet, change, ctx).0.corrections)
  {
    hide BuildRow;
    if change.Correct? && HasRow(BuildPreview(sheet, ctx).rows, change.sourceRow) {
      var rows := BuildPreview(sheet, ctx).rows;
      var i :| 0 <= i < |rows| && rows[i].sourceRow == change.sourceRow;
      RowsAreBuilt(sheet, ctx, 0);
      assert BaseRows(sheet, ctx)[i] in RowsFrom(sheet, ctx, 0);
      DecimalRoundTrip(change.sourceRow);
    }
  }

  lemma {:induction false} RunsAreWellStored(states: seq<DecisionState>, events: seq<Event>, i: nat)
    requires Run(states, events) && i < |states|
    ensures WellStored(states[i])
  {
    hide BuildPreview;
    if i > 0 {
      RunsAreWellStored(states, events, i - 1);
      assert Follows(states, events, i - 1);
      StepKeepsWellStored(events[i - 1], states[i - 1]);
    }
  }

  lemma NothingIsWellStored()
    ensures StoreCorrections(ParseCorrections(map[])) == map[]
  {
  }

  lemma StepKeepsWellStored(e: Event, s: DecisionState)
    requires WellStored(s)
    ensures WellStored(Perform(e, s).state)
  {
    hide BuildPreview, ParseCorrections, StoreCorrections, ChangeSheet, EditPreview;
    NothingIsWellStored();
    if e.EvPreview? && HasCurrentResult(e.read) {
      var k, file := |e.read.jobs| - 1, e.read.rosterFile.value;
      RefusedEditKeeps(k, file, e.change, e.ctx, s);
      if EditPreview(k, file, e.change, e.ctx, s).error.None? {
        EditedResult(k, file, e.change, e.ctx, s);
      }
    }
  }

  lemma RefusedEditKeeps(k: nat, file: Id, change: Change, ctx: Context, s: DecisionState)
    ensures EditPreview(k, file, change, ctx, s).error.Some? ==> EditPreview(k, file, change, ctx, s).state == s
  {
    hide ChangeSheet;
  }

  /** An edit rewrites one result, which reads back as the edited sheet. */
  lemma EditedResult(k: nat, file: Id, change: Change, ctx: Context, s: DecisionState)
    requires WellStored(s) && EditPreview(k, file, change, ctx, s).error.None?
    ensures Editable(k, file, s)
    ensures var r, after := s.jobs[k].result.value, EditPreview(k, file, change, ctx, s).state;
            var sheet := ChangeSheet(SheetOf(r), change, ctx).0;
            var r' := r.(mapping := sheet.mapping, corrections := StoreCorrections(sheet.corrections),
                         preview := BuildPreview(sheet, ctx));
            && after == s.(jobs := s.jobs[k := s.jobs[k].(result := Some(r'))])
            && SheetOf(r') == sheet && WellStored(after)
  {
    hide BuildPreview, ParseCorrections, StoreCorrections, Storable;
    var r := s.jobs[k].result.value;
    ParsedIsStorable(r.corrections);
    ChangedSheetIsStorable(SheetOf(r), change, ctx);
    ParseIsIdentityIffStorable(ChangeSheet(SheetOf(r), change, ctx).0.corrections);
    hide ChangeSheet;
  }

  /** After every committed edit and every job that finishes with a result, the stored rows and summary are a fresh
      preview of the stored table, mapping and corrections in that step's context. */
  lemma StoredPreviewIsFresh(e: Event, s: DecisionState)
    requires WellStored(s) && Perform(e, s).error.None?
    requires e.EvPreview? || (e.EvFinishJob? && Perform(e, s).state.jobs[e.job].status.Completed?)
    ensures var k := if e.EvPreview? then |e.read.jobs| - 1 else e.job;
            && 0 <= k < |Perform(e, s).state.jobs|
            && var job := Perform(e, s).state.jobs[k];
               && job.result.Some?
               && job.result.value.preview
                  == BuildPreview(SheetOf(job.result.value), if e.EvPreview? then e.ctx else e.jobCtx)
  {
    hide BuildPreview, ChangeSheet, EditPreview, WellStored, ParseCorrections, StoreCorrections;
    if e.EvPreview? {
      EditedResult(|e.read.jobs| - 1, e.read.rosterFile.value, e.change, e.ctx, s);
    } else {
      NothingParsed();
    }
  }

  lemma NothingParsed()
    ensures ParseCorrections(map[]) == map[]
  {
  }

  /** Corrections of one row, one after the other, each in the context of its own step. */
  function CorrectAll(n: nat, changes: seq<(Correction, Context)>, s: DecisionState): Outcome {
    if changes == [] then Commit(s)
    else
      var init := CorrectAll(n, changes[..|changes| - 1], s);
      var (correction, ctx) := changes[|changes| - 1];
      if init.error.Some? then init else UpdatePreview(Correct(n, correction), ctx, init.state, init.state)
  }

  lemma UpdatedResult(change: Change, ctx: Context, s: DecisionState)
    requires WellStored(s) && UpdatePreview(change, ctx, s, s).error.None?
    ensures HasCurrentResult(s) && HasCurrentResult(UpdatePreview(change, ctx, s, s).state)
    ensures WellStored(UpdatePreview(change, ctx, s, s).state)
    ensures var sheet := ChangeSheet(SheetOf(CurrentResult(s)), change, ctx).0;
            && SheetOf(CurrentResult(UpdatePreview(change, ctx, s, s).state)) == sheet
            && CurrentResult(UpdatePreview(change, ctx, s, s).state)
               == CurrentResult(s).(mapping := sheet.mapping, corrections := StoreCorrections(sheet.corrections),
                                    preview := BuildPreview(sheet, ctx))
    ensures SameButResult(s, UpdatePreview(change, ctx, s, s).state)
  {
    hide BuildPreview, WellStored, ParseCorrections, StoreCorrections, EditPreview, ChangeSheet;
    EditedResult(|s.jobs| - 1, s.rosterFile.value, change, ctx, s);
  }

  /** The two states differ at most in the result of the last job. */
  predicate SameButResult(a: DecisionState, b: DecisionState) {
    && |a.jobs| == |b.jobs| > 0
    && b == a.(jobs := a.jobs[|a.jobs| - 1 := a.jobs[|a.jobs| - 1].(result := b.jobs[|b.jobs| - 1].result)])
  }

  /** Line n of the file, counting the header as the first, holds something. */
  predicate HasLine(sheet: Sheet, n: nat) {
    2 <= n < |sheet.sourceRows| + 2 && !BlankRow(sheet.sourceRows[n - 2])
  }

  lemma PreviewKeepsNumbers(sheet: Sheet, ctx: Context)
    ensures var base, rows := BaseRows(sheet, ctx), BuildPreview(sheet, ctx).rows;
            |rows| == |base| && forall i :: 0 <= i < |rows| ==> rows[i].sourceRow == base[i].sourceRow
  {
    hide BaseRows;
  }

  /** Which rows there are depends on the file alone, not on the mapping, the corrections or the context. */
  lemma RowExistsIff(sheet: Sheet, ctx: Context, n: nat)
    ensures HasRow(BuildPreview(sheet, ctx).rows, n) <==> HasLine(sheet, n)
  {
    hide BuildRow, BuildPreview;
    var base, rows := BaseRows(sheet, ctx), BuildPreview(sheet, ctx).rows;
    PreviewKeepsNumbers(sheet, ctx);
    if HasLine(sheet, n) {
      EveryLineHasARow(sheet, ctx, 0, n - 2);
      BuildRowWellBuilt(sheet, ctx, sheet.sourceRows[n - 2], n);
      var i :| 0 <= i < |base| && base[i] == BuildRow(sheet, ctx, sheet.sourceRows[n - 2], n);
      assert rows[i].sourceRow == n;
    } else if HasRow(rows, n) {
      RowsAreBuilt(sheet, ctx, 0);
      var i :| 0 <= i < |rows| && rows[i].sourceRow == n;
      assert base[i] in RowsFrom(sheet, ctx, 0);
      assert false;
    }
  }

  /** Two states whose last results differ at most in the preview and in one row's corrections. */
  predicate SameButRow(n: nat, a: DecisionState, b: DecisionState) {
    && HasCurrentResult(a) && HasCurrentResult(b) && SameButResult(a, b)
    && var r, t := CurrentResult(a), CurrentResult(b);
       && t == r.(corrections := t.corrections, preview := t.preview)
       && SheetOf(t).corrections - {Decimal(n)} == SheetOf(r).corrections - {Decimal(n)}
  }

  predicate Revertible(sheet: Sheet, n: nat) { HasLine(sheet, n) && CorrectionAt(sheet, n) != NO_CORRECTION }

  lemma CorrectionTouchesOneKey(n: nat, correction: Correction, ctx: Context, s: DecisionState)
    requires WellStored(s) && UpdatePreview(Correct(n, correction), ctx, s, s).error.None?
    ensures var after := UpdatePreview(Correct(n, correction), ctx, s, s).state;
            && WellStored(after) && SameButRow(n, s, after)
            && Revertible(SheetOf(CurrentResult(after)), n)
  {
    hide BuildPreview, ParseCorrections, StoreCorrections, WellStored;
    RowExistsIff(SheetOf(CurrentResult(s)), ctx, n);
    UpdatedResult(Correct(n, correction), ctx, s);
    var before := SheetOf(CurrentResult(s));
    var changed := ChangeSheet(before, Correct(n, correction), ctx).0;
    assert changed.corrections - {Decimal(n)} == before.corrections - {Decimal(n)};
  }

  lemma SameButRowChains(n: nat, a: DecisionState, b: DecisionState, c: DecisionState)
    requires SameButRow(n, a, b) && SameButRow(n, b, c)
    ensures SameButRow(n, a, c)
  {
    hide ParseCorrections;
  }

  lemma {:induction false} CorrectionsTouchOneKey(n: nat, changes: seq<(Correction, Context)>, s: DecisionState)
    requires WellStored(s) && HasCurrentResult(s) && CorrectAll(n, changes, s).error.None?
    ensures var after := CorrectAll(n, changes, s).state;
            && WellStored(after) && SameButRow(n, s, after)
            && (changes != [] ==> Revertible(SheetOf(CurrentResult(after)), n))
  {
    if changes != [] {
      hide BuildPreview, ParseCorrections, StoreCorrections, WellStored, UpdatePreview, Revertible, SameButResult;
      var init, last := changes[..|changes| - 1], changes[|changes| - 1];
      CorrectionsTouchOneKey(n, init, s);
      var mid := CorrectAll(n, init, s).state;
      CorrectionTouchesOneKey(n, last.0, last.1, mid);
      SameButRowChains(n, s, mid, CorrectAll(n, changes, s).state);
    }
  }

  lemma LastResultIsWellStored(s: DecisionState)
    requires WellStored(s) && HasCurrentResult(s)
    ensures CurrentResult(s).corrections == StoreCorrections(SheetOf(CurrentResult(s)).corrections)
  {
  }

  /** After any number of corrections to an uncorrected row one revert succeeds and gives back the stored
      table, mapping and corrections, with a preview that is fresh for the revert's context: the very same
      decision, if its preview was fresh for that context before. */
  lemma CorrectionsThenRevert(n: nat, changes: seq<(Correction, Context)>, ctx: Context, s: DecisionState)
    requires WellStored(s) && changes != [] && CorrectAll(n, changes, s).error.None?
    requires HasCurrentResult(s) && Decimal(n) !in SheetOf(CurrentResult(s)).corrections
    ensures UpdatePreview(Revert(n), ctx, CorrectAll(n, changes, s).state, CorrectAll(n, changes, s).state).error.None?
    ensures var after := UpdatePreview(Revert(n), ctx, CorrectAll(n, changes, s).state,
                                       CorrectAll(n, changes, s).state).state;
            && SameButResult(s, after) && HasCurrentResult(after)
            && CurrentResult(after) == CurrentResult(s).(preview := BuildPreview(SheetOf(CurrentResult(s)), ctx))
            && (CurrentResult(s).preview == BuildPreview(SheetOf(CurrentResult(s)), ctx) ==> after == s)
  {
    hide BuildPreview, ParseCorrections, StoreCorrections, WellStored;
    CorrectionsTouchOneKey(n, changes, s);
    var corrected := CorrectAll(n, changes, s).state;
    RowExistsIff(SheetOf(CurrentResult(corrected)), ctx, n);
    UpdatedResult(Revert(n), ctx, corrected);
    LastResultIsWellStored(s);
    var before, after := SheetOf(CurrentResult(s)), SheetOf(CurrentResult(corrected));
    assert before.corrections - {Decimal(n)} == before.corrections;
    assert ChangeSheet(after, Revert(n), ctx).0 == before;
  }
}
