/** When a request on an award decision commits and what exactly it changes. */
module RosterRules {
  import opened ReviewTypes
  import opened RosterLogic
  import opened StoredCorrections
  import opened RosterWorkflow

  predicate IsDraft(s: DecisionState) { s.status == DraftDecision }

  // ---------- Details, files and archiving ----------

  /** Details and files change on a draft only, those given and no others. */
  lemma EditsIff(edit: DetailsEdit, isRoster: bool, file: Id, s: DecisionState)
    ensures var outcome, was := Update(edit, s), s.details;
            && (outcome.error == None <==> IsDraft(s))
            && outcome.state == (if !IsDraft(s) then s else s.(details := outcome.state.details))
            && (IsDraft(s) ==>
                  var now := outcome.state.details;
                  && Some(now.schoolYear) == (if edit.schoolYear != None then edit.schoolYear else Some(was.schoolYear))
                  && Some(now.decisionNumber)
                     == (if edit.decisionNumber != None then edit.decisionNumber else Some(was.decisionNumber))
                  && Some(now.decisionDate)
                     == (if edit.decisionDate != None then edit.decisionDate else Some(was.decisionDate)))
    ensures var outcome := Upload(isRoster, file, s);
            && (outcome.error == None <==> IsDraft(s))
            && outcome.state == if !IsDraft(s) then s else if isRoster then s.(rosterFile := Some(file))
                                else s.(decisionFile := Some(file))
  {
  }

  /** Whatever is not archived can be. A restore takes a decision that was read archived and still is, and the status
      it gives back goes by whether it was read with a confirmation. */
  lemma ArchivingIff(read: DecisionState, s: DecisionState)
    ensures var outcome := Archive(s);
            && (outcome.error == None <==> s.status != ArchivedDecision)
            && outcome.state == s.(status := ArchivedDecision)
    ensures var outcome := Unarchive(read, s);
            && (outcome.error == None <==> read.status == ArchivedDecision && s.status == ArchivedDecision)
            && outcome.state == if outcome.error != None then s
                                else s.(status := if read.confirmedAt == None then DraftDecision else ConfirmedDecision)
  {
  }

  // ---------- Jobs ----------

  /** The state with one more job, queued for the file. */
  predicate QueuesAnother(s: DecisionState, file: Id, after: DecisionState) {
    after == s.(jobs := s.jobs + [Job(file, Queued, None)])
  }

  /** Processing takes a draft with a roster file, as it was read. If the latest job, as it was looked up, is of that
      file and has not failed, nothing happens; if it has failed and still is, it is queued again; in every other
      case another job is queued. */
  lemma ProcessIff(read: DecisionState, look: DecisionState, s: DecisionState)
    ensures var outcome := ProcessRoster(read, look, s);
            && (outcome.error == None <==> IsDraft(read) && read.rosterFile != None)
            && (outcome.error != None ==> outcome.state == s)
            && (outcome.error == None ==>
                  var file, k := read.rosterFile.value, |look.jobs| - 1;
                  if k >= 0 && look.jobs[k].inputFile == file then
                    if look.jobs[k].status != JobStatus.Failed then outcome.state == s
                    else if k < |s.jobs| && s.jobs[k].status == JobStatus.Failed then
                      outcome.state == s.(jobs := s.jobs[k := Job(s.jobs[k].inputFile, Queued, None)])
                    else QueuesAnother(s, file, outcome.state)
                  else QueuesAnother(s, file, outcome.state))
  {
  }

  /** A worker takes a queued job. A job in work whose worker is given up is queued again or fails; either way it has
      no result. */
  lemma WorkersIff(k: nat, again: bool, s: DecisionState)
    ensures var outcome := ClaimJob(k, s);
            && (outcome.error == None <==> k < |s.jobs| && s.jobs[k].status == Queued)
            && outcome.state == if outcome.error != None then s
                                else s.(jobs := s.jobs[k := Job(s.jobs[k].inputFile, Processing, s.jobs[k].result)])
    ensures var outcome := RecoverJob(k, again, s);
            && (outcome.error == None <==> k < |s.jobs| && s.jobs[k].status == Processing)
            && outcome.state == if outcome.error != None then s
                                else s.(jobs := s.jobs[k := Job(s.jobs[k].inputFile,
                                                                if again then Queued else JobStatus.Failed, None)])
  {
  }

  /** The worker could use what it read: a draft whose roster file is the job's, and a table with columns. */
  predicate Usable(job: Job, parsed: Option<ParsedTable>, read: DecisionState) {
    IsDraft(read) && read.rosterFile == Some(job.inputFile) && parsed != None && parsed.value.columns != []
  }

  /** A worker that finishes completes its job exactly if it could use what it read, with the table, the suggested
      mapping, no corrections and a preview of just that. Otherwise the job has no result; it is tried again only if
      the file was to blame and another attempt is left. Other jobs stay. */
  lemma FinishIff(k: nat, parsed: Option<ParsedTable>, again: bool, ctx: Context, read: DecisionState, s: DecisionState)
    ensures var outcome := FinishJob(k, parsed, again, ctx, read, s);
            && (outcome.error == None <==> k < |s.jobs|)
            && (outcome.error != None ==> outcome.state == s)
            && (outcome.error == None ==>
                  var was, job := s.jobs[k], outcome.state.jobs[k];
                  && outcome.state == s.(jobs := s.jobs[k := job]) && job.inputFile == was.inputFile
                  && (job.status == JobStatus.Completed <==> Usable(was, parsed, read))
                  && (job.status == Queued
                      <==> !Usable(was, parsed, read) && again && IsDraft(read)
                           && read.rosterFile == Some(was.inputFile))
                  && job.status != Processing
                  && job.result == if !Usable(was, parsed, read) then None
                                   else
                                     var t := parsed.value;
                                     Some(Result(was.inputFile, t.columns, t.sourceRows, t.mapping, map[],
                                                 BuildPreview(Sheet(t.columns, t.sourceRows, t.mapping, map[]), ctx))))
  {
    hide BuildPreview;
  }

  // ---------- Preview edits ----------

  /** Job k has finished the file, which is the roster of the draft. */
  predicate HasFinished(s: DecisionState, k: nat, file: Id) {
    && IsDraft(s) && s.rosterFile == Some(file) && k < |s.jobs|
    && s.jobs[k].inputFile == file && s.jobs[k].status == JobStatus.Completed
    && s.jobs[k].result != None && s.jobs[k].result.value.rosterFile == file
  }

  /** What stands in a stored result, corrections read back. */
  function StoredSheet(r: Result): Sheet {
    Sheet(r.columns, r.sourceRows, r.mapping, ParseCorrections(r.corrections))
  }

  /** A correction put on top of another: what is given replaces what stood there. */
  function Over(c: Correction, was: Correction): Correction {
    Correction(if c.studentCode != None then c.studentCode else was.studentCode,
               if c.fullName != None then c.fullName else was.fullName,
               if c.className != None then c.className else was.className,
               if c.institutionText != None then c.institutionText else was.institutionText)
  }

  predicate IsCorrected(sheet: Sheet, n: nat) {
    Text.Decimal(n) in sheet.corrections
    && sheet.corrections[Text.Decimal(n)] != Correction(None, None, None, None)
  }

  /** The edit is possible on the sheet: the mapping fits the columns; the row is there and something is given to
      correct, or there to take back. */
  predicate CanChange(sheet: Sheet, change: Change) {
    match change
    case SetMapping(mapping) => ValidMapping(sheet.columns, mapping)
    case Correct(n, c) => HasLine(sheet, n) && c != Correction(None, None, None, None)
    case Revert(n) => HasLine(sheet, n) && IsCorrected(sheet, n)
  }

  function ChangedSheet(sheet: Sheet, change: Change): Sheet {
    match change
    case SetMapping(mapping) => sheet.(mapping := mapping)
    case Correct(n, c) =>
      var key := Text.Decimal(n);
      var was := if key in sheet.corrections then sheet.corrections[key] else Correction(None, None, None, None);
      sheet.(corrections := sheet.corrections[key := Over(c, was)])
    case Revert(n) => sheet.(corrections := sheet.corrections - {Text.Decimal(n)})
  }

  lemma ChangeSheetIff(sheet: Sheet, change: Change, ctx: Context)
    ensures var (changed, error) := ChangeSheet(sheet, change, ctx);
            && (error == None <==> CanChange(sheet, change))
            && (error == None ==> changed == ChangedSheet(sheet, change))
  {
    hide BuildPreview;
    match change
    case SetMapping(_) =>
    case Correct(n, _) => RowExistsIff(sheet, ctx, n);
    case Revert(n) => RowExistsIff(sheet, ctx, n);
  }

  /** The job that was read as the latest and finished still is finished under the lock, and its sheet can be changed
      that way; a mapping must also have fitted the columns as they were read. */
  predicate CanEdit(change: Change, read: DecisionState, s: DecisionState) {
    var k := |read.jobs| - 1;
    && k >= 0 && read.rosterFile != None
    && HasFinished(read, k, read.rosterFile.value) && HasFinished(s, k, read.rosterFile.value)
    && (change.SetMapping? ==> CanChange(StoredSheet(read.jobs[k].result.value), change))
    && CanChange(StoredSheet(s.jobs[k].result.value), change)
  }

  /** Job k is stored so that it reads back as the changed sheet, with a preview of just that; the file, its table,
      every other job and the rest of the decision stay. */
  predicate EditedAs(s: DecisionState, k: nat, change: Change, ctx: Context, after: DecisionState) {
    && k < |s.jobs| == |after.jobs| && s.jobs[k].result != None && after.jobs[k].result != None
    && var r, r' := s.jobs[k].result.value, after.jobs[k].result.value;
       && after == s.(jobs := s.jobs[k := s.jobs[k].(result := Some(r'))])
       && r'.rosterFile == r.rosterFile
       && StoredSheet(r') == ChangedSheet(StoredSheet(r), change)
       && r'.preview == BuildPreview(StoredSheet(r'), ctx)
  }

  /** Exactly when an edit of a preview commits, and what it stores. */
  lemma EditPreviewIff(change: Change, ctx: Context, read: DecisionState, s: DecisionState)
    requires WellStored(s)
    ensures var outcome := UpdatePreview(change, ctx, read, s);
            && (outcome.error == None <==> CanEdit(change, read, s))
            && (outcome.error != None ==> outcome.state == s)
            && (outcome.error == None ==> EditedAs(s, |read.jobs| - 1, change, ctx, outcome.state))
  {
    hide BuildPreview, ParseCorrections, StoreCorrections, WellStored, ChangeSheet, CanChange, ChangedSheet,
      ValidMapping;
    var k := |read.jobs| - 1;
    if k >= 0 && read.rosterFile != None && HasFinished(read, k, read.rosterFile.value)
       && HasFinished(s, k, read.rosterFile.value) {
      var file := read.rosterFile.value;
      ChangeSheetIff(SheetOf(s.jobs[k].result.value), change, ctx);
      MappingFits(SheetOf(read.jobs[k].result.value), change);
      if EditPreview(k, file, change, ctx, s).error.None? {
        EditedResult(k, file, change, ctx, s);
      } else {
        RefusedEditKeeps(k, file, change, ctx, s);
      }
    }
  }

  lemma MappingFits(sheet: Sheet, change: Change)
    ensures change.SetMapping? ==> (CanChange(sheet, change) <==> ValidMapping(sheet.columns, change.mapping))
  {
  }

  // ---------- Refusals ----------

  /** Why an edit of a preview is refused: the decision or the job is not in the state for it, or the edit does not fit
      the sheet. */
  predicate EditReason(code: ErrorCode, change: Change, read: DecisionState, s: DecisionState) {
    var k := |read.jobs| - 1;
    var there := k >= 0 && read.rosterFile != None && HasFinished(read, k, read.rosterFile.value)
      && HasFinished(s, k, read.rosterFile.value);
    match code
    case Conflict =>
      !there || (change.Revert? && !IsCorrected(StoredSheet(s.jobs[k].result.value), change.sourceRow))
    case MappingInvalid =>
      change.SetMapping? && k >= 0 && read.jobs[k].result != None
      && (!CanChange(StoredSheet(read.jobs[k].result.value), change)
          || (there && !CanChange(StoredSheet(s.jobs[k].result.value), change)))
    case RowNotFound =>
      !change.SetMapping? && there && !HasLine(StoredSheet(s.jobs[k].result.value), change.sourceRow)
    case EmptyCorrection => change.Correct? && change.correction == Correction(None, None, None, None)
    case _ => false
  }

  /** Why a request is refused. */
  ghost predicate Reason(code: ErrorCode, e: Event, s: DecisionState) {
    match e
    case EvUpdate(_) => code == ErrorCode.Conflict && !IsDraft(s)
    case EvUpload(_, _) => code == ErrorCode.Conflict && !IsDraft(s)
    case EvProcess(read, _) =>
      (code == ErrorCode.Conflict && !IsDraft(read)) || (code == MissingRoster && read.rosterFile == None)
    case EvClaimJob(k) => code == ErrorCode.Conflict && !(k < |s.jobs| && s.jobs[k].status == Queued)
    case EvRecoverJob(k, _) => code == ErrorCode.Conflict && !(k < |s.jobs| && s.jobs[k].status == Processing)
    case EvFinishJob(k, _, _, _, _) => code == ErrorCode.Conflict && k >= |s.jobs|
    case EvPreview(change, _, read) => EditReason(code, change, read, s)
    case EvConfirm(_, _, ctx) =>
      (code == ErrorCode.Conflict && forall k :: !FreezesJob(s, k))
      || (code == NotAllValid
          && exists k :: FreezesJob(s, k) && !HasOnlyValidRows(BuildPreview(FrozenTable(s, k), ctx).rows))
    case EvArchive => code == ErrorCode.Conflict && s.status == ArchivedDecision
    case EvUnarchive(read) =>
      code == ErrorCode.Conflict && !(read.status == ArchivedDecision && s.status == ArchivedDecision)
  }

  lemma EditRefusedTruly(change: Change, ctx: Context, read: DecisionState, s: DecisionState)
    ensures var error := UpdatePreview(change, ctx, read, s).error;
            error != None ==> EditReason(error.value, change, read, s)
  {
    hide BuildPreview, ParseCorrections, StoreCorrections, ChangeSheet, ValidMapping, HasLine;
    var k := |read.jobs| - 1;
    if k >= 0 && read.rosterFile != None && HasFinished(read, k, read.rosterFile.value)
       && HasFinished(s, k, read.rosterFile.value) {
      ChangeRefusedTruly(SheetOf(s.jobs[k].result.value), change, ctx);
      MappingFits(SheetOf(read.jobs[k].result.value), change);
    }
  }

  lemma ChangeRefusedTruly(sheet: Sheet, change: Change, ctx: Context)
    ensures var error := ChangeSheet(sheet, change, ctx).1;
            error != None ==>
              || (error.value == MappingInvalid && change.SetMapping? && !CanChange(sheet, change))
              || (error.value == RowNotFound && !change.SetMapping? && !HasLine(sheet, change.sourceRow))
              || (error.value == EmptyCorrection && change.Correct?
                  && change.correction == Correction(None, None, None, None))
              || (error.value == ErrorCode.Conflict && change.Revert? && !IsCorrected(sheet, change.sourceRow))
  {
    hide BuildPreview;
    match change
    case SetMapping(_) =>
    case Correct(n, _) => RowExistsIff(sheet, ctx, n);
    case Revert(n) => RowExistsIff(sheet, ctx, n);
  }

  lemma ConfirmRefusedTruly(actor: Id, now: Time, ctx: Context, s: DecisionState)
    ensures var error := Confirm(actor, now, ctx, s).error;
            error != None ==>
              || (error.value == ErrorCode.Conflict && forall k :: !FreezesJob(s, k))
              || (error.value == NotAllValid
                  && exists k :: FreezesJob(s, k) && !HasOnlyValidRows(BuildPreview(FrozenTable(s, k), ctx).rows))
  {
    hide BuildPreview, ConfirmableSheet, FreezesJob, FrozenTable;
    forall k ensures FreezesJob(s, k) ==> ConfirmableSheet(s) == Some(FrozenTable(s, k)) {
      ConfirmableSheetIff(s, k);
    }
    ConfirmableSheetIff(s, 0);
    ConfirmCommitsIff(actor, now, ctx, s);
  }

  /** Whatever request on a decision is refused, the reason it names holds. */
  lemma RefusalsAreTrue(e: Event, s: DecisionState)
    ensures var error := Perform(e, s).error; error != None ==> Reason(error.value, e, s)
  {
    if e.EvPreview? {
      EditRefusedTruly(e.change, e.ctx, e.read, s);
      hide UpdatePreview, EditReason;
    } else if e.EvConfirm? {
      ConfirmRefusedTruly(e.actor, e.now, e.confirmCtx, s);
      hide Confirm, FreezesJob;
    } else {
      hide BuildPreview;
    }
  }
}
