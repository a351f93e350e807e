/** The processing jobs of an award decision, and which of their results a confirmation freezes. */
module RosterJobs {
  import opened ReviewTypes
  import opened Sequences
  import opened RosterLogic
  import opened StoredCorrections
  import opened RosterWorkflow

  function InputFiles(jobs: seq<Job>): seq<Id> { Map((j: Job) => j.inputFile, jobs) }

  /** A job is complete exactly when it has a result, which is of its own file. */
  predicate SoundJob(j: Job) {
    (j.status.Completed? <==> j.result.Some?) && (j.result.Some? ==> j.result.value.rosterFile == j.inputFile)
  }

  /** No file has two jobs, and a job of the current file is the latest. */
  predicate SoundJobs(s: DecisionState) {
    && (forall k :: 0 <= k < |s.jobs| ==> SoundJob(s.jobs[k]))
    && Distinct(InputFiles(s.jobs))
    && forall k :: 0 <= k < |s.jobs| - 1 ==> Some(s.jobs[k].inputFile) != s.rosterFile
  }

  /** Stored files get random identifiers: a new roster file is none the decision has had. */
  predicate FreshFile(e: Event, s: DecisionState) {
    e.EvUpload? && e.isRoster ==> Some(e.file) != s.rosterFile && e.file !in InputFiles(s.jobs)
  }

  ghost predicate FreshRun(states: seq<DecisionState>, events: seq<Event>) {
    Run(states, events) && forall i :: 0 <= i < |events| ==> FreshFile(events[i], states[i])
  }

  /** A processing request that queues a job finds none yet of its file, nor of the current one. */
  predicate QueuesRightly(e: Event, s: DecisionState) {
    e.EvProcess? && |Perform(e, s).state.jobs| > |s.jobs| ==>
      && e.read.rosterFile.value !in InputFiles(s.jobs)
      && (s.rosterFile.Some? ==> s.rosterFile.value !in InputFiles(s.jobs))
  }

  lemma QueuingKeepsSoundIff(s: DecisionState, file: Id)
    requires SoundJobs(s)
    ensures SoundJobs(s.(jobs := s.jobs + [Job(file, Queued, None)]))
            <==> file !in InputFiles(s.jobs) && (s.rosterFile.Some? ==> s.rosterFile.value !in InputFiles(s.jobs))
  {
    var after := s.(jobs := s.jobs + [Job(file, Queued, None)]);
    assert InputFiles(after.jobs) == InputFiles(s.jobs) + [file];
    if file in InputFiles(s.jobs) {
      var k :| 0 <= k < |s.jobs| && InputFiles(s.jobs)[k] == file;
      assert InputFiles(after.jobs)[k] == InputFiles(after.jobs)[|s.jobs|];
    }
    if s.rosterFile.Some? && s.rosterFile.value in InputFiles(s.jobs) {
      var k :| 0 <= k < |s.jobs| && InputFiles(s.jobs)[k] == s.rosterFile.value;
      assert after.jobs[k].inputFile == s.rosterFile.value;
    }
    forall k | 0 <= k < |s.jobs| ensures InputFiles(s.jobs)[k] in InputFiles(s.jobs) {
    }
  }

  lemma StepKeepsFiles(e: Event, s: DecisionState)
    requires (forall k :: 0 <= k < |s.jobs| ==> SoundJob(s.jobs[k]))
    requires |Perform(e, s).state.jobs| == |s.jobs|
    ensures InputFiles(Perform(e, s).state.jobs) == InputFiles(s.jobs)
    ensures forall k :: 0 <= k < |s.jobs| ==> SoundJob(Perform(e, s).state.jobs[k])
    ensures Perform(e, s).state.rosterFile == s.rosterFile
            || (e.EvUpload? && e.isRoster && Perform(e, s).state.jobs == s.jobs)
  {
    hide BuildPreview, ParseCorrections, StoreCorrections, ChangeSheet;
  }

  /** One that acts on what it read with nothing in between always does. */
  lemma CurrentReadQueuesRightly(s: DecisionState)
    requires SoundJobs(s)
    ensures QueuesRightly(EvProcess(s, s), s)
  {
    if |Perform(EvProcess(s, s), s).state.jobs| > |s.jobs| {
      forall k | 0 <= k < |s.jobs| ensures InputFiles(s.jobs)[k] != s.rosterFile.value {
      }
    }
  }

  lemma OnlyProcessingQueues(e: Event, s: DecisionState)
    ensures |Perform(e, s).state.jobs| > |s.jobs| ==>
              e.EvProcess? && Perform(e, s).state == s.(jobs := s.jobs + [Job(e.read.rosterFile.value, Queued, None)])
    ensures |Perform(e, s).state.jobs| >= |s.jobs|
  {
    hide BuildPreview, ParseCorrections, StoreCorrections, ChangeSheet;
  }

  lemma StepKeepsSoundIff(e: Event, s: DecisionState)
    requires SoundJobs(s) && FreshFile(e, s)
    ensures SoundJobs(Perform(e, s).state) <==> QueuesRightly(e, s)
  {
    OnlyProcessingQueues(e, s);
    var after := Perform(e, s).state;
    if |after.jobs| > |s.jobs| {
      QueuingKeepsSoundIff(s, e.read.rosterFile.value);
      hide Perform;
    } else {
      StepKeepsFiles(e, s);
      hide Perform, Distinct, SoundJob;
      if e.EvUpload? && e.isRoster {
        forall k | 0 <= k < |s.jobs| ensures InputFiles(after.jobs)[k] in InputFiles(s.jobs) {
        }
      }
      forall k | 0 <= k < |s.jobs| ensures after.jobs[k].inputFile == s.jobs[k].inputFile {
        assert InputFiles(after.jobs)[k] == InputFiles(s.jobs)[k];
      }
      UploadingSetsFile(e, s);
    }
  }

  lemma UploadingSetsFile(e: Event, s: DecisionState)
    ensures Perform(e, s).state.rosterFile == s.rosterFile
            || (e.EvUpload? && e.isRoster && Perform(e, s).state.rosterFile == Some(e.file))
  {
    hide BuildPreview, ParseCorrections, StoreCorrections, ChangeSheet;
  }

  /** Up to any moment of a run in which jobs are queued rightly. */
  lemma {:induction false} JobsAreSound(states: seq<DecisionState>, events: seq<Event>, i: nat)
    requires FreshRun(states, events) && i < |states|
    requires forall k :: 0 <= k < i ==> QueuesRightly(events[k], states[k])
    ensures SoundJobs(states[i])
  {
    hide SoundJobs, Perform, FreshFile, QueuesRightly;
    if i == 0 {
      NoJobsAreSound(states, events);
    } else {
      JobsAreSound(states, events, i - 1);
      assert Follows(states, events, i - 1) && FreshFile(events[i - 1], states[i - 1]);
      StepKeepsSoundIff(events[i - 1], states[i - 1]);
    }
  }

  lemma NoJobsAreSound(states: seq<DecisionState>, events: seq<Event>)
    requires Run(states, events)
    ensures SoundJobs(states[0])
  {
  }

  /** Throughout a run no file has two jobs, and a job of the current file is the latest, exactly if no processing
      request queues a job where its own file or the current one has got one since it looked. */
  lemma RunIsSoundIff(states: seq<DecisionState>, events: seq<Event>)
    requires FreshRun(states, events)
    ensures (forall j :: 0 <= j < |states| ==> SoundJobs(states[j]))
            <==> forall i :: 0 <= i < |events| ==> QueuesRightly(events[i], states[i])
  {
    hide SoundJobs, Perform, FreshFile, QueuesRightly;
    if forall i :: 0 <= i < |events| ==> QueuesRightly(events[i], states[i]) {
      forall j | 0 <= j < |states| ensures SoundJobs(states[j]) {
        JobsAreSound(states, events, j);
      }
    } else {
      var i :| 0 <= i < |events| && !QueuesRightly(events[i], states[i]);
      assert Follows(states, events, i) && FreshFile(events[i], states[i]);
      if SoundJobs(states[i]) {
        StepKeepsSoundIff(events[i], states[i]);
      }
    }
  }

  // ---------- What is confirmed and what is shown ----------

  predicate ResultsAreSound(s: DecisionState) { forall k :: 0 <= k < |s.jobs| ==> SoundJob(s.jobs[k]) }

  lemma StepKeepsResults(e: Event, s: DecisionState)
    requires ResultsAreSound(s)
    ensures ResultsAreSound(Perform(e, s).state)
  {
    OnlyProcessingQueues(e, s);
    if |Perform(e, s).state.jobs| == |s.jobs| {
      StepKeepsFiles(e, s);
    }
    hide Perform;
  }

  lemma {:induction false} RunKeepsResults(states: seq<DecisionState>, events: seq<Event>, i: nat)
    requires Run(states, events) && i < |states|
    ensures ResultsAreSound(states[i])
  {
    if i > 0 {
      hide Perform, ResultsAreSound;
      RunKeepsResults(states, events, i - 1);
      assert Follows(states, events, i - 1);
      StepKeepsResults(events[i - 1], states[i - 1]);
    }
  }

  /** The sheet a preview shows: the latest job's. */
  function ShownSheet(s: DecisionState): Option<Sheet> {
    if s.status.DraftDecision? && HasCurrentResult(s) then Some(SheetOf(CurrentResult(s))) else None
  }

  /** The current file has a finished job, and a later job is not finished. */
  predicate HiddenByLater(s: DecisionState) {
    && s.status.DraftDecision? && s.rosterFile.Some?
    && var k := LatestCompleted(s.jobs);
       k.Some? && k.value < |s.jobs| - 1 && s.jobs[k.value].inputFile == s.rosterFile.value
  }

  /** A confirmation looks for the latest completed job, a preview for the latest job. In every state of every run
      they find the same sheet, or both none, exactly unless a later unfinished job hides the file's finished one. */
  lemma WhatIsConfirmedIsWhatIsShownIff(states: seq<DecisionState>, events: seq<Event>, i: nat)
    requires Run(states, events) && i < |states|
    ensures ConfirmableSheet(states[i]) == ShownSheet(states[i]) <==> !HiddenByLater(states[i])
  {
    hide Run, SheetOf;
    RunKeepsResults(states, events, i);
    var s := states[i];
    var k := LatestCompleted(s.jobs);
    if k.Some? {
      assert SoundJob(s.jobs[k.value]);
    }
  }

  /** So where jobs are queued rightly, what is confirmed is always the sheet that is shown. */
  lemma WhatIsConfirmedIsWhatIsShown(states: seq<DecisionState>, events: seq<Event>, i: nat)
    requires FreshRun(states, events) && i < |states|
    requires forall k :: 0 <= k < i ==> QueuesRightly(events[k], states[k])
    ensures ConfirmableSheet(states[i]) == ShownSheet(states[i])
  {
    hide Run, Distinct, FreshFile, QueuesRightly, ConfirmableSheet, ShownSheet;
    JobsAreSound(states, events, i);
    WhatIsConfirmedIsWhatIsShownIff(states, events, i);
  }
}
