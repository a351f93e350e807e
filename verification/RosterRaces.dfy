/** Runs in which outdated reads do harm: a decision is confirmed twice, and a preview is hidden behind a job. */
module RosterRaces {
  import opened ReviewTypes
  import opened Text
  import opened RosterLogic
  import opened StoredCorrections
  import opened RosterWorkflow
  import opened RosterJobs

  const COLUMNS := ["code", "name"]
  const MAPPING := Mapping("code", "name", None, None)
  const LINE: SourceRow := [Cell.Text("1"), Cell.Text("A")]
  const TABLE := ParsedTable(COLUMNS, [LINE], MAPPING)
  const SHEET := Sheet(COLUMNS, [LINE], MAPPING, map[])

  /** A school's own award: every row is of the issuer. */
  function SchoolContext(): Context {
    Context(SchoolAward, Institution("school", None, "School", None, []), [], [], (s: string) => s)
  }

  lemma TheRow()
    ensures BuildRow(SHEET, SchoolContext(), LINE, 2).status.Valid? && !BlankRow(LINE)
  {
    assert "code"[0] != "name"[0];
    assert IndexOf(COLUMNS, "code") == Some(0);
    assert COLUMNS[1..] == ["name"];
    assert IndexOf(["name"], "name") == Some(0);
    assert IndexOf(COLUMNS, "name") == Some(1);
    assert Trim("1") == "1" && Trim("A") == "A";
    assert ValueAt(COLUMNS, LINE, Some("code")) == Some(Cell.Text("1"));
    assert ValueAt(COLUMNS, LINE, Some("name")) == Some(Cell.Text("A"));
    assert CorrectionAt(SHEET, 2) == NO_CORRECTION;
    assert CorrectedFields(SHEET, LINE, 2).studentCode == Some("1");
    assert CorrectedFields(SHEET, LINE, 2).fullName == Some("A");
  }

  /** The sheet has one row, and it is valid. */
  lemma ThePreview()
    ensures BuildPreview(SHEET, SchoolContext()).rows != [] && AllValid(BuildPreview(SHEET, SchoolContext()).rows)
  {
    hide BuildRow, BlankRow;
    TheRow();
    var row := BuildRow(SHEET, SchoolContext(), LINE, 2);
    assert RowsFrom(SHEET, SchoolContext(), 1) == [];
    assert BaseRows(SHEET, SchoolContext()) == [row];
    assert [row][..0] == [];
    assert Counted(row) ==> KeyCount([row], Key(row)) == 1;
  }

  lemma ExtendRun(states: seq<DecisionState>, events: seq<Event>, e: Event)
    requires Run(states, events) && ReadsFrom(e, states)
    ensures Run(states + [Perform(e, states[|states| - 1]).state], events + [e])
  {
    hide Perform, ReadsFrom;
    var states', events' := states + [Perform(e, states[|states| - 1]).state], events + [e];
    assert states'[0] == states[0];
    forall i | 0 <= i < |events'| ensures Follows(states', events', i) {
      if i < |events| {
        assert Follows(states, events, i);
        assert states'[..i + 1] == states[..i + 1];
      } else {
        assert states'[..i + 1] == states;
      }
    }
  }

  lemma ExtendByStep(states: seq<DecisionState>, events: seq<Event>, e: Event, next: DecisionState)
    requires Run(states, events) && ReadsFrom(e, states) && Perform(e, states[|states| - 1]).state == next
    ensures Run(states + [next], events + [e])
  {
    hide Perform, ReadsFrom;
    ExtendRun(states, events, e);
  }

  function Uploaded(): DecisionState { Created(Details("2025-2026", None, None)).(rosterFile := Some("file")) }

  function WithJobs(jobs: seq<Job>): DecisionState { Uploaded().(jobs := jobs) }

  function Finishing(read: DecisionState): Event { EvFinishJob(0, Some(TABLE), false, SchoolContext(), read) }

  function FinishedJob(): Job {
    Job("file", JobStatus.Completed,
        Some(Result("file", COLUMNS, [LINE], MAPPING, map[], BuildPreview(SHEET, SchoolContext()))))
  }

  lemma UploadedRun() returns (states: seq<DecisionState>, events: seq<Event>)
    ensures Run(states, events) && |events| == 1 && states[1] == Uploaded()
  {
    states, events := [Created(Details("2025-2026", None, None))], [];
    assert Run(states, events);
    ExtendRun(states, events, EvUpload(true, "file"));
    states, events := states + [Uploaded()], events + [EvUpload(true, "file")];
  }

  /** An uploaded, processed and then archived draft. */
  lemma ArchivedDraftRun() returns (states: seq<DecisionState>, events: seq<Event>)
    ensures Run(states, events) && |events| == 5
    ensures var s := states[5];
            && s.status.ArchivedDecision? && s.confirmedAt.None? && s.recipients == []
            && ConfirmableSheet(s.(status := DraftDecision)) == Some(SHEET)
  {
    hide BuildPreview;
    states, events := UploadedRun();
    assert |states| == 2 && states[1] in states;
    var queued, taken := WithJobs([Job("file", Queued, None)]), WithJobs([Job("file", Processing, None)]);
    var done := WithJobs([FinishedJob()]);
    var archived := done.(status := ArchivedDecision);
    assert Perform(EvProcess(Uploaded(), Uploaded()), Uploaded()).state == queued;
    assert Perform(EvClaimJob(0), queued).state == taken;
    assert Perform(Finishing(taken), taken).state == done;
    assert Perform(EvArchive, done).state == archived;
    assert SheetOf(FinishedJob().result.value) == SHEET;
    assert LatestCompleted(done.jobs) == Some(0);
    hide Run, Perform, FinishedJob, Uploaded;
    ExtendByStep(states, events, EvProcess(Uploaded(), Uploaded()), queued);
    states, events := states + [queued], events + [EvProcess(Uploaded(), Uploaded())];
    ExtendByStep(states, events, EvClaimJob(0), taken);
    states, events := states + [taken], events + [EvClaimJob(0)];
    ExtendByStep(states, events, Finishing(taken), done);
    states, events := states + [done], events + [Finishing(taken)];
    ExtendByStep(states, events, EvArchive, archived);
    states, events := states + [archived], events + [EvArchive];
  }

  lemma RestoredDraftConfirms(s: DecisionState, now: Time)
    requires s.status.ArchivedDecision? && s.confirmedAt.None?
    requires ConfirmableSheet(s.(status := DraftDecision)) == Some(SHEET)
    ensures Unarchive(s, s) == Commit(s.(status := DraftDecision))
    ensures Confirm("manager", now, SchoolContext(), Unarchive(s, s).state).error.None?
  {
    hide BuildPreview, ConfirmableSheet;
    ThePreview();
  }

  lemma ExtendByRestore(states: seq<DecisionState>, events: seq<Event>, read: DecisionState, cur: DecisionState)
    requires Run(states, events) && cur == states[|states| - 1] && read in states
    ensures Run(states + [Unarchive(read, cur).state], events + [EvUnarchive(read)])
  {
    ExtendRun(states, events, EvUnarchive(read));
  }

  function ConfirmAt(now: Time): Event { EvConfirm("manager", now, SchoolContext()) }

  function Confirmed(now: Time, s: DecisionState): Outcome { Confirm("manager", now, SchoolContext(), s) }

  lemma ExtendByConfirm(states: seq<DecisionState>, events: seq<Event>, now: Time, cur: DecisionState)
    requires Run(states, events) && cur == states[|states| - 1] && Confirmed(now, cur).error.None?
    ensures Run(states + [Confirmed(now, cur).state], events + [ConfirmAt(now)])
    ensures Confirms(states + [Confirmed(now, cur).state], events + [ConfirmAt(now)], |events|)
  {
    hide Confirm;
    ExtendRun(states, events, ConfirmAt(now));
  }

  /** The state in which the draft, restored and confirmed, is archived again. */
  function ConfirmedOnce(s: DecisionState): DecisionState { Confirmed(10, Unarchive(s, s).state).state }

  /** The first three steps from an archived draft on. */
  lemma ConfirmedRun(states: seq<DecisionState>, events: seq<Event>, s: DecisionState)
    requires Run(states, events) && s == states[|states| - 1]
    requires Confirmed(10, Unarchive(s, s).state).error.None?
    ensures var c := ConfirmedOnce(s);
            var states' := states + [Unarchive(s, s).state] + [c] + [Archive(c).state];
            var events' := events + [EvUnarchive(s)] + [ConfirmAt(10)] + [EvArchive];
            Run(states', events') && Confirms(states', events', |events| + 1)
  {
    var states1, events1 := states + [Unarchive(s, s).state], events + [EvUnarchive(s)];
    assert |states1| == |events1| + 1;
    hide Run, Unarchive, Confirm, Archive;
    ExtendByRestore(states, events, s, s);
    ExtendByConfirm(states1, events1, 10, Unarchive(s, s).state);
    var states2, events2 := states1 + [ConfirmedOnce(s)], events1 + [ConfirmAt(10)];
    ExtendRun(states2, events2, EvArchive);
  }

  /** The two steps that confirm it once more. */
  lemma ConfirmedAgainRun(states: seq<DecisionState>, events: seq<Event>, read: DecisionState, cur: DecisionState)
    requires Run(states, events) && cur == states[|states| - 1] && read in states
    requires Confirmed(20, Unarchive(read, cur).state).error.None?
    ensures var reopened := Unarchive(read, cur).state;
            var states' := states + [reopened] + [Confirmed(20, reopened).state];
            var events' := events + [EvUnarchive(read)] + [ConfirmAt(20)];
            Run(states', events') && Confirms(states', events', |events| + 1)
  {
    assert |states| == |events| + 1;
    hide Run, Unarchive, Confirm;
    var reopened := Unarchive(read, cur).state;
    ExtendByRestore(states, events, read, cur);
    ExtendByConfirm(states + [reopened], events + [EvUnarchive(read)], 20, reopened);
  }

  /** A draft archived, restored, confirmed and archived again. */
  lemma ArchivedAgainRun() returns (states: seq<DecisionState>, events: seq<Event>)
    ensures Run(states, events) && |events| == 8 && Confirms(states, events, 6)
    ensures var s := states[5];
            && s.status.ArchivedDecision? && s.confirmedAt.None? && s.recipients == []
            && ConfirmableSheet(s.(status := DraftDecision)) == Some(SHEET)
            && states[7] == ConfirmedOnce(s) && states[8] == Archive(states[7]).state
  {
    states, events := ArchivedDraftRun();
    var s := states[5];
    RestoredDraftConfirms(s, 10);
    assert |states| == 6;
    hide Run, Unarchive, Confirm, Archive, BuildPreview, ConfirmableSheet, Perform;
    ConfirmedRun(states, events, s);
    var c := ConfirmedOnce(s);
    states := states + [Unarchive(s, s).state] + [c] + [Archive(c).state];
    events := events + [EvUnarchive(s)] + [ConfirmAt(10)] + [EvArchive];
  }

  lemma StaleRestoreRun() returns (states: seq<DecisionState>, events: seq<Event>)
    ensures Run(states, events) && |events| == 10
    ensures Confirms(states, events, 6) && Confirms(states, events, 9)
    ensures states[7].recipients != [] && states[10].recipients == states[7].recipients + states[7].recipients
  {
    states, events := ArchivedAgainRun();
    var s, archived := states[5], states[8];
    RestoredDraftConfirms(s, 10);
    StaleRestoreConfirmsTwice(s, "manager", 10, 20, SchoolContext());
    assert |states| == 9;
    hide Run, Unarchive, Confirm, Archive, BuildPreview, ConfirmableSheet, Perform;
    ConfirmedAgainRun(states, events, s, archived);
    var reopened := Unarchive(s, archived).state;
    states := states + [reopened] + [Confirmed(20, reopened).state];
    events := events + [EvUnarchive(s)] + [ConfirmAt(20)];
  }

  /** It does happen: upload, process, claim, finish, archive, and then two restores, the second of which read the
      decision before the first. The decision is confirmed twice and every recipient is stored twice. */
  lemma DecisionIsConfirmedTwice()
    ensures exists states: seq<DecisionState>, events: seq<Event> ::
              Run(states, events) && |events| == 10 && Confirms(states, events, 6) && Confirms(states, events, 9)
              && states[7].recipients != [] && states[10].recipients == states[7].recipients + states[7].recipients
  {
    var states, events := StaleRestoreRun();
    assert Run(states, events);
  }

  // ---------- Two jobs of one file ----------

  function Process(): Event { EvProcess(Uploaded(), Uploaded()) }

  function Waiting(): Job { Job("file", Queued, None) }

  /** Two requests that look before either queues. */
  lemma QueuedTwiceRun() returns (states: seq<DecisionState>, events: seq<Event>)
    ensures Run(states, events) && |events| == 3 && events[1] == Process() && events[2] == Process()
    ensures states[2] == WithJobs([Waiting()]) && states[3] == WithJobs([Waiting(), Waiting()])
  {
    states, events := UploadedRun();
    assert |states| == 2 && states[1] in states;
    QueuingTwice();
    hide Run, Perform, Uploaded, Waiting;
    ExtendByStep(states, events, Process(), WithJobs([Waiting()]));
    states, events := states + [WithJobs([Waiting()])], events + [Process()];
    ExtendByStep(states, events, Process(), WithJobs([Waiting(), Waiting()]));
    states, events := states + [WithJobs([Waiting(), Waiting()])], events + [Process()];
  }

  /** A worker then takes the first job and finishes it. */
  lemma HiddenRun() returns (states: seq<DecisionState>, events: seq<Event>)
    ensures Run(states, events) && |events| == 5 && events[1] == Process() && events[2] == Process()
    ensures states[2] == WithJobs([Waiting()]) && states[5] == WithJobs([FinishedJob(), Waiting()])
  {
    states, events := QueuedTwiceRun();
    QueuingTwice();
    assert |states| == 4;
    var taken := WithJobs([Job("file", Processing, None), Waiting()]);
    hide Run, Perform, FinishedJob, Uploaded, Process, Waiting;
    ExtendByStep(states, events, EvClaimJob(0), taken);
    states, events := states + [taken], events + [EvClaimJob(0)];
    ExtendByStep(states, events, Finishing(taken), WithJobs([FinishedJob(), Waiting()]));
    states, events := states + [WithJobs([FinishedJob(), Waiting()])], events + [Finishing(taken)];
  }

  /** Two processing requests both look before either queues a job. The first job is finished, and a confirmation
      would freeze its sheet, while no preview is shown because the second job is the latest. */
  lemma PreviewIsHidden()
    ensures exists states: seq<DecisionState>, events: seq<Event> ::
              && Run(states, events) && |events| == 5 && events[1] == events[2] == Process()
              && !QueuesRightly(events[2], states[2]) && HiddenByLater(states[5])
              && ConfirmableSheet(states[5]) == Some(SHEET) && ShownSheet(states[5]) == None
  {
    var states, events := HiddenRun();
    QueuingTwice();
    HidingState(states[5]);
    hide BuildPreview, Perform, FinishedJob, Uploaded, QueuesRightly, ShownSheet, ConfirmableSheet, HiddenByLater;
    assert Run(states, events);
  }

  lemma QueuingTwice()
    ensures var one, two := WithJobs([Waiting()]), WithJobs([Waiting(), Waiting()]);
            var taken := WithJobs([Job("file", Processing, None), Waiting()]);
            && Perform(Process(), Uploaded()).state == one && Perform(Process(), one).state == two
            && Perform(EvClaimJob(0), two).state == taken
            && Perform(Finishing(taken), taken).state == WithJobs([FinishedJob(), Waiting()])
            && !QueuesRightly(Process(), one)
  {
    hide BuildPreview;
    assert InputFiles(WithJobs([Waiting()]).jobs)[0] == "file";
  }

  lemma HidingState(done: DecisionState)
    requires done == WithJobs([FinishedJob(), Waiting()])
    ensures ConfirmableSheet(done) == Some(SHEET) && ShownSheet(done) == None && HiddenByLater(done)
  {
    hide BuildPreview;
    assert done.jobs[..1] == [FinishedJob()];
    assert LatestCompleted(done.jobs) == Some(0);
    assert SheetOf(FinishedJob().result.value) == SHEET;
  }

  // ---------- A worker that comes too late ----------

  const SWAPPED := Mapping("name", "code", None, None)

  /** The finished job with its mapping edited. */
  function RemappedJob(): Job {
    var sheet := SHEET.(mapping := SWAPPED);
    Job("file", JobStatus.Completed,
        Some(Result("file", COLUMNS, [LINE], SWAPPED, map[], BuildPreview(sheet, SchoolContext()))))
  }

  lemma Remapping(done: DecisionState)
    requires done == WithJobs([FinishedJob()])
    ensures UpdatePreview(SetMapping(SWAPPED), SchoolContext(), done, done) == Commit(WithJobs([RemappedJob()]))
  {
    hide BuildPreview;
    assert SheetOf(FinishedJob().result.value) == SHEET;
    var selected := SelectedColumns(SWAPPED);
    assert selected == ["name", "code"] && "name" in COLUMNS && "code" in COLUMNS;
    assert "code"[0] != "name"[0];
    assert ValidMapping(COLUMNS, SWAPPED);
    assert StoreCorrections(map[]) == map[];
  }

  /** A worker takes the job, its lease runs out, and another takes it again and finishes. */
  lemma TakenTwiceRun() returns (states: seq<DecisionState>, events: seq<Event>)
    ensures Run(states, events) && |events| == 6
    ensures WithJobs([Job("file", Processing, None)]) in states && states[6] == WithJobs([FinishedJob()])
  {
    states, events := UploadedRun();
    assert |states| == 2 && states[1] in states;
    var queued, taken := WithJobs([Waiting()]), WithJobs([Job("file", Processing, None)]);
    TakenTwice();
    hide BuildPreview, Run, Perform, FinishedJob, Uploaded;
    ExtendByStep(states, events, Process(), queued);
    states, events := states + [queued], events + [Process()];
    ExtendByStep(states, events, EvClaimJob(0), taken);
    states, events := states + [taken], events + [EvClaimJob(0)];
    ExtendByStep(states, events, EvRecoverJob(0, true), queued);
    states, events := states + [queued], events + [EvRecoverJob(0, true)];
    ExtendByStep(states, events, EvClaimJob(0), taken);
    states, events := states + [taken], events + [EvClaimJob(0)];
    ExtendByStep(states, events, Finishing(taken), WithJobs([FinishedJob()]));
    states, events := states + [WithJobs([FinishedJob()])], events + [Finishing(taken)];
  }

  function Remap(read: DecisionState): Event { EvPreview(SetMapping(SWAPPED), SchoolContext(), read) }

  function Taken(): DecisionState { WithJobs([Job("file", Processing, None)]) }

  function Done(): DecisionState { WithJobs([FinishedJob()]) }

  function Edited(): DecisionState { WithJobs([RemappedJob()]) }

  /** A manager edits the mapping. */
  lemma EditedRun() returns (states: seq<DecisionState>, events: seq<Event>)
    ensures Run(states, events) && |events| == 7 && Taken() in states
    ensures states[6] == Done() && states[7] == Edited() && events[6] == Remap(Done())
  {
    states, events := TakenTwiceRun();
    LateSteps(Taken(), Done(), Edited());
    assert |states| == 7 && ReadsFrom(Remap(Done()), states);
    hide *;
    ExtendByStep(states, events, Remap(Done()), Edited());
    states, events := states + [Edited()], events + [Remap(Done())];
  }

  /** And then the first worker finishes too. */
  lemma LateRun() returns (states: seq<DecisionState>, events: seq<Event>)
    ensures Run(states, events) && |events| == 8 && events[6] == Remap(Done()) && events[7] == Finishing(Taken())
    ensures states[6] == Done() && states[7] == Edited() && states[8] == Done()
  {
    states, events := EditedRun();
    LateSteps(Taken(), Done(), Edited());
    assert |states| == 8 && ReadsFrom(Finishing(Taken()), states);
    hide *;
    ExtendByStep(states, events, Finishing(Taken()), Done());
    states, events := states + [Done()], events + [Finishing(Taken())];
  }

  lemma RemapPerforms(read: DecisionState, s: DecisionState)
    ensures Perform(Remap(read), s) == UpdatePreview(SetMapping(SWAPPED), SchoolContext(), read, s)
  {
    hide UpdatePreview, SchoolContext, SWAPPED;
  }

  lemma LateSteps(taken: DecisionState, done: DecisionState, edited: DecisionState)
    requires taken == WithJobs([Job("file", Processing, None)]) && done == WithJobs([FinishedJob()])
    requires edited == WithJobs([RemappedJob()])
    ensures Perform(Remap(done), done) == Commit(edited) && Perform(Finishing(taken), edited).state == done
  {
    hide BuildPreview, UpdatePreview, FinishedJob, RemappedJob, SchoolContext, Perform, Remap, Finishing, WithJobs;
    TakenTwice();
    Remapping(done);
    RemapPerforms(done, done);
  }

  /** The edit is gone. */
  lemma LateWorkerUndoesAnEdit()
    ensures exists states: seq<DecisionState>, events: seq<Event> ::
              && Run(states, events) && |events| == 8 && events[6] == Remap(states[6]) && events[7].EvFinishJob?
              && Perform(events[6], states[6]) == Commit(states[7])
              && states[7] != states[6] && states[8] == states[6]
  {
    var states, events := LateRun();
    LateSteps(Taken(), Done(), Edited());
    assert Edited().jobs[0].result.value.mapping != Done().jobs[0].result.value.mapping;
    assert Finishing(Taken()).EvFinishJob?;
    hide *;
    assert Run(states, events) && Perform(events[6], states[6]) == Commit(states[7]);
  }

  lemma TakenTwice()
    ensures var queued, taken := WithJobs([Waiting()]), WithJobs([Job("file", Processing, None)]);
            && Perform(Process(), Uploaded()).state == queued
            && Perform(EvClaimJob(0), queued).state == taken
            && Perform(EvRecoverJob(0, true), taken).state == queued
            && Perform(Finishing(taken), taken).state == WithJobs([FinishedJob()])
            && Perform(Finishing(taken), WithJobs([RemappedJob()])).state == WithJobs([FinishedJob()])
  {
    hide BuildPreview;
  }
}
