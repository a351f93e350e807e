/** The award repository's transactions on one decision, as they rewrite its rows in place. A refused
    transaction leaves the rows as they were; every method is proved to be the request function of the
    same name in `RosterWorkflow`. */
module AwardDecisionStore {
  import opened ReviewTypes
  import opened RosterLogic
  import opened Text
  import opened StoredCorrections
  import opened RosterWorkflow

  lemma TotalCountsRows(sheet: Sheet, ctx: Context)
    ensures BuildPreview(sheet, ctx).summary.total == |BuildPreview(sheet, ctx).rows|
  {
  }

  class AwardDecision {
    var status: DecisionStatus
    var schoolYear: string
    var decisionNumber: Option<string>
    var decisionDate: Option<Time>
    var decisionFile: Option<Id>
    var rosterFile: Option<Id>
    var confirmedAt: Option<Time>
    var confirmedBy: Option<Id>
    var jobs: seq<Job>
    var recipients: seq<Recipient>

    ghost function Value(): DecisionState
      reads this
    {
      DecisionState(status, Details(schoolYear, decisionNumber, decisionDate), decisionFile, rosterFile, confirmedAt,
                    confirmedBy, jobs, recipients)
    }

    constructor Create(year: string, number: Option<string>, date: Option<Time>)
      ensures Value() == Created(Details(year, number, date))
    {
      status, schoolYear, decisionNumber, decisionDate := DraftDecision, year, number, date;
      decisionFile, rosterFile, confirmedAt, confirmedBy := None, None, None, None;
      jobs, recipients := [], [];
    }

    method Update(edit: DetailsEdit) returns (error: Option<ErrorCode>)
      modifies this`schoolYear, this`decisionNumber, this`decisionDate
      ensures Outcome(Value(), error) == RosterWorkflow.Update(edit, old(Value()))
    {
      if !status.DraftDecision? { return Some(ErrorCode.Conflict); }
      if edit.schoolYear.Some? {
        schoolYear := edit.schoolYear.value;
      }
      if edit.decisionNumber.Some? {
        decisionNumber := edit.decisionNumber.value;
      }
      if edit.decisionDate.Some? {
        decisionDate := edit.decisionDate.value;
      }
      return None;
    }

    method AttachFile(isRoster: bool, file: Id) returns (error: Option<ErrorCode>)
      modifies this`rosterFile, this`decisionFile
      ensures Outcome(Value(), error) == RosterWorkflow.Upload(isRoster, file, old(Value()))
    {
      if !status.DraftDecision? { return Some(ErrorCode.Conflict); }
      if isRoster {
        rosterFile := Some(file);
      } else {
        decisionFile := Some(file);
      }
      return None;
    }

    /** Edits a copy of the corrections of the job that was read, recomputes the preview and rewrites the job's
        result. */
    method UpdatePreview(change: Change, ctx: Context, read: DecisionState) returns (error: Option<ErrorCode>)
      modifies this`jobs
      ensures Outcome(Value(), error) == RosterWorkflow.UpdatePreview(change, ctx, read, old(Value()))
    {
      hide BuildPreview, ParseCorrections, StoreCorrections, HasRow, ValidMapping;
      if !read.status.DraftDecision? || !HasCurrentResult(read) { return Some(ErrorCode.Conflict); }
      var columns := CurrentResult(read).columns;
      if change.SetMapping? && !ValidMapping(columns, change.mapping) { return Some(MappingInvalid); }
      var k, file := |read.jobs| - 1, read.rosterFile.value;
      if !status.DraftDecision? || rosterFile != Some(file) { return Some(ErrorCode.Conflict); }
      if k >= |jobs| || !jobs[k].status.Completed? || jobs[k].inputFile != file { return Some(ErrorCode.Conflict); }
      if jobs[k].result.None? || jobs[k].result.value.rosterFile != file { return Some(ErrorCode.Conflict); }
      var result := jobs[k].result.value;
      var mapping := result.mapping;
      var rowCorrections := ParseRowCorrections(result.corrections);
      match change {
        case SetMapping(chosen) =>
          if !ValidMapping(result.columns, chosen) { return Some(MappingInvalid); }
          mapping := chosen;
        case Correct(n, correction) =>
          var before := ComputePreview(Sheet(result.columns, result.sourceRows, mapping, rowCorrections), ctx);
          if !HasRow(before.rows, n) { return Some(RowNotFound); }
          if correction == NO_CORRECTION { return Some(EmptyCorrection); }
          var key := Decimal(n);
          var prior := if key in rowCorrections then rowCorrections[key] else NO_CORRECTION;
          rowCorrections := rowCorrections[key := Merge(prior, correction)];
        case Revert(n) =>
          var before := ComputePreview(Sheet(result.columns, result.sourceRows, mapping, rowCorrections), ctx);
          if !HasRow(before.rows, n) { return Some(RowNotFound); }
          var key := Decimal(n);
          if key !in rowCorrections || rowCorrections[key] == NO_CORRECTION { return Some(ErrorCode.Conflict); }
          rowCorrections := rowCorrections - {key};
      }
      var preview := ComputePreview(Sheet(result.columns, result.sourceRows, mapping, rowCorrections), ctx);
      result := result.(mapping := mapping, corrections := StoreCorrections(rowCorrections), preview := preview);
      jobs := jobs[k := jobs[k].(result := Some(result))];
      return None;
    }

    /** Recomputes the preview under the lock and freezes its rows into recipients. */
    method Confirm(actor: Id, now: Time, ctx: Context) returns (error: Option<ErrorCode>)
      modifies this`status, this`confirmedAt, this`confirmedBy, this`recipients
      ensures Outcome(Value(), error) == RosterWorkflow.Confirm(actor, now, ctx, old(Value()))
    {
      hide BuildPreview, ParseCorrections;
      if !status.DraftDecision? || rosterFile.None? { return Some(ErrorCode.Conflict); }
      var k := LatestCompleted(jobs);
      if k.None? { return Some(ErrorCode.Conflict); }
      var job := jobs[k.value];
      if job.inputFile != rosterFile.value || job.result.None? || job.result.value.rosterFile != rosterFile.value {
        return Some(ErrorCode.Conflict);
      }
      var result := job.result.value;
      var rowCorrections := ParseRowCorrections(result.corrections);
      var preview := ComputePreview(Sheet(result.columns, result.sourceRows, result.mapping, rowCorrections), ctx);
      TotalCountsRows(Sheet(result.columns, result.sourceRows, result.mapping, rowCorrections), ctx);
      if preview.summary.total == 0 || !AllValid(preview.rows) { return Some(NotAllValid); }
      status, confirmedBy, confirmedAt := ConfirmedDecision, Some(actor), Some(now);
      for i := 0 to |preview.rows|
        modifies this`recipients
        invariant recipients == old(recipients) + ToRecipients(preview.rows[..i])
      {
        assert ToRecipients(preview.rows[..i + 1]) == ToRecipients(preview.rows[..i]) + [ToRecipient(preview.rows[i])];
        recipients := recipients + [ToRecipient(preview.rows[i])];
      }
      assert preview.rows[..|preview.rows|] == preview.rows;
      return None;
    }

    method Archive() returns (error: Option<ErrorCode>)
      modifies this`status
      ensures Outcome(Value(), error) == RosterWorkflow.Archive(old(Value()))
    {
      if status.ArchivedDecision? { return Some(ErrorCode.Conflict); }
      status := ArchivedDecision;
      return None;
    }

    method Unarchive(read: DecisionState) returns (error: Option<ErrorCode>)
      modifies this`status
      ensures Outcome(Value(), error) == RosterWorkflow.Unarchive(read, old(Value()))
    {
      if !read.status.ArchivedDecision? { return Some(ErrorCode.Conflict); }
      var restored := if read.confirmedAt.Some? then ConfirmedDecision else DraftDecision;
      if !status.ArchivedDecision? { return Some(ErrorCode.Conflict); }
      status := restored;
      return None;
    }

    /** Queues a job for the roster file that was read unless one is under way or done; retries a failed one, and
        queues another if the retry finds it no longer failed. */
    method ProcessRoster(read: DecisionState, look: DecisionState) returns (error: Option<ErrorCode>)
      modifies this`jobs
      ensures Outcome(Value(), error) == RosterWorkflow.ProcessRoster(read, look, old(Value()))
    {
      if !read.status.DraftDecision? { return Some(ErrorCode.Conflict); }
      if read.rosterFile.None? { return Some(MissingRoster); }
      var last := |look.jobs| - 1;
      if last >= 0 && look.jobs[last].inputFile == read.rosterFile.value {
        if !look.jobs[last].status.Failed? { return None; }
        if last < |jobs| && jobs[last].status.Failed? {
          jobs := jobs[last := jobs[last].(status := Queued, result := None)];
          return None;
        }
      }
      jobs := jobs + [Job(read.rosterFile.value, Queued, None)];
      return None;
    }
  }
}
