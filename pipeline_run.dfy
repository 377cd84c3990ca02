/**
  * One run of the three-stage pipeline over a job record: the step helpers, the progress
  * callbacks with their ETA guard, the cancellation checkpoints between the stages, and
  * the three ways a run ends (cancelled, failed, completed).
  *
  * The stage executors are not modelled; each is given as a `StageRun`: the progress
  * reports it makes, in order, and whether it returns or raises. Cancellation is given as
  * `cancelFrom`, the first of the six checkpoints at which the job's cancel flag is seen.
  */
module PipelineRun {
  import opened Wrappers
  import opened Values
  import opened JobState
  import Text
  import Analysis

  /** One call of a stage's progress callback: its message, the percentage passed, and
      the clock reading at the call. */
  datatype Report = Report(message: string, progress: real, at: real)

  /** How a stage executor ends: it returns (possibly early, after seeing the cancel
      flag), or it raises with the given `str(e)`. */
  datatype Exit = Returned | Raised(error: string)

  /** A stage as run: the clock reading when it starts, its progress reports, its exit. */
  datatype StageRun = StageRun(startedAt: real, reports: seq<Report>, exit: Exit)

  /** What the stages leave in the pipeline context: the transcription, its timestamp
      segments, and the findings the language model would give for a non-empty text. */
  datatype Outputs = Outputs(transcription: string, timestamps: seq<Value>, fromModel: Analysis.Findings)

  const CANCELLED_BY_USER := "Cancelled by user"

  // ===========================================================================
  // Step helpers

  /** `max(0.0, min(100.0, progress))`. */
  function Clamp(progress: real): (r: real)
    ensures 0.0 <= r <= 100.0
    ensures 0.0 <= progress <= 100.0 ==> r == progress
    ensures progress < 0.0 ==> r == 0.0
    ensures progress > 100.0 ==> r == 100.0
  {
    if progress < 0.0 then 0.0 else if progress > 100.0 then 100.0 else progress
  }

  /** The ETA a progress callback passes on: only strictly between 0 and 100 percent. */
  function Eta(elapsed: real, progress: real): (r: Option<real>)
    ensures r.Some? <==> 0.0 < progress < 100.0
  {
    if progress > 0.0 && progress < 100.0 then Some((elapsed / progress) * (100.0 - progress)) else None
  }

  /** A step shows a percentage in [0, 100], and an ETA only while strictly inside it. */
  predicate StepWellFormed(st: StepState) {
    0.0 <= st.progress <= 100.0 && (st.eta.Some? ==> 0.0 < st.progress < 100.0)
  }

  /** `set_step_running`: the start time is taken only on the first call. */
  function MarkRunning(st: StepState, message: string, progress: real, eta: Option<real>, now: real): (r: StepState)
    ensures r.status == Running && r.message == message && r.eta == eta
    ensures r.progress == Clamp(progress)
    ensures r.startTime == (if st.startTime.Some? then st.startTime else Some(now))
    ensures r.name == st.name && r.detail == st.detail
  {
    st.(status := Running, message := message, progress := Clamp(progress), eta := eta,
        startTime := if st.startTime.None? then Some(now) else st.startTime)
  }

  /** `set_step_ok`. */
  function MarkOk(st: StepState, detail: string): StepState {
    st.(status := Completed, message := "Done", detail := detail, progress := 100.0, eta := None)
  }

  /** `set_step_fail`. */
  function MarkFailed(st: StepState, error: string): StepState {
    st.(status := Failed, message := "Failed", detail := error, progress := 0.0, eta := None)
  }

  /** The step after the progress callback has been called with each report in turn. */
  function ApplyReports(st: StepState, startedAt: real, reports: seq<Report>): (r: StepState)
    ensures reports == [] ==> r == st
    ensures reports != [] ==> r.status == Running && r.message == reports[|reports| - 1].message
    ensures r.name == st.name && r.detail == st.detail
    ensures st.startTime.Some? ==> r.startTime == st.startTime
    ensures StepWellFormed(st) ==> StepWellFormed(r)
  {
    if reports == [] then st
    else
      var last := reports[|reports| - 1];
      var before := ApplyReports(st, startedAt, reports[..|reports| - 1]);
      MarkRunning(before, last.message, last.progress, Eta(last.at - startedAt, last.progress), last.at)
  }

  /** A stage's step once it has started ("Starting...", 0%) and made all its reports:
      running, timed from its first start, and well formed. */
  function Reported(st: StepState, run: StageRun): (r: StepState)
    ensures r.status == Running && StepWellFormed(r)
    ensures r.startTime == (if st.startTime.Some? then st.startTime else Some(run.startedAt))
    ensures r.name == st.name
    ensures run.reports == [] ==> r.message == "Starting..." && r.progress == 0.0 && r.eta == None
  {
    ApplyReports(MarkRunning(st, "Starting...", 0.0, None, run.startedAt), run.startedAt, run.reports)
  }

  // ===========================================================================
  // How a run ends

  /** The checkpoints are numbered 0 to 5: before stage 0, then after and before each
      stage in turn, and after stage 2. */
  datatype Ending = CancelledAt(checkpoint: nat) | FailedIn(stage: nat, error: string) | Finished

  function Exits(runs: seq<StageRun>): seq<Exit>
    requires |runs| == 3
  {
    [runs[0].exit, runs[1].exit, runs[2].exit]
  }

  /** The first event of a run: a checkpoint that sees the cancel flag, or a stage that
      raises. A run finishes only when every stage returns and no checkpoint sees the flag. */
  function EndingOf(exits: seq<Exit>, cancelFrom: nat): (r: Ending)
    requires |exits| == 3
    ensures r.Finished? <==> cancelFrom > 5 && forall i :: 0 <= i < 3 ==> exits[i].Returned?
    ensures r.FailedIn? ==>
      r.stage < 3 && exits[r.stage] == Raised(r.error) && 2 * r.stage < cancelFrom &&
      forall j :: 0 <= j < r.stage ==> exits[j].Returned?
    ensures r.CancelledAt? ==>
      r.checkpoint == cancelFrom <= 5 && forall j :: 0 <= j < 3 && 2 * j < cancelFrom ==> exits[j].Returned?
  {
    if cancelFrom == 0 then CancelledAt(0)
    else if exits[0].Raised? then FailedIn(0, exits[0].error)
    else if cancelFrom <= 2 then CancelledAt(cancelFrom)
    else if exits[1].Raised? then FailedIn(1, exits[1].error)
    else if cancelFrom <= 4 then CancelledAt(cancelFrom)
    else if exits[2].Raised? then FailedIn(2, exits[2].error)
    else if cancelFrom == 5 then CancelledAt(5)
    else Finished
  }

  // ===========================================================================
  // The record as a run goes on

  // Written as short pieces: the verifier handles a long literal character by character.
  const PREPROCESS_DETAIL := "Converted " + "to WAV and " + "normalized"
  const ANALYZE_DETAIL := "Main topic, " + "subtopics, and " + "truth statements " + "extracted"

  /** The detail written when a stage completes. */
  function StageDetail(stage: nat, out: Outputs): string {
    if stage == 0 then PREPROCESS_DETAIL
    else if stage == 1 then Text.IntToString(|out.timestamps|) + " segments"
    else ANALYZE_DETAIL
  }

  /** The result entries stage `stage` writes when it completes, in order. */
  function StageEntries(stage: nat, out: Outputs, filename: string): (r: seq<(string, Value)>)
    ensures DistinctKeys(r)
  {
    if stage == 0 then [("audio_ready", Bool(true))]
    else if stage == 1 then [("transcription", Str(out.transcription)), ("timestamps", List(out.timestamps))]
    else
      var f := Analysis.AnalyzeLlm(out.transcription, out.fromModel);
      [("main_topic", Str(f.mainTopic)),
       ("subtopics", List(Strs(f.subtopics))),
       ("truth_statements_md", Str(f.truthStatementsMd)),
       ("original_filename", Str(filename))]
  }

  /** A list of strings as a JSON list. */
  function Strs(items: seq<string>): seq<Value> {
    seq(|items|, k requires 0 <= k < |items| => Str(items[k]))
  }

  function StageResult(result: seq<(string, Value)>, stage: nat, out: Outputs, filename: string): seq<(string, Value)> {
    AssignAll(result, StageEntries(stage, out, filename))
  }

  /** The result entries written after the first `done` stages. */
  function ResultAfter(result: seq<(string, Value)>, done: nat, out: Outputs, filename: string): seq<(string, Value)> {
    if done == 0 then result else StageResult(ResultAfter(result, done - 1, out, filename), done - 1, out, filename)
  }

  /** Stage `j`'s step when stages `0..done-1` have completed and, if `running`, stage
      `done` has started and returned. */
  function StepAfter(st: StepState, run: StageRun, j: nat, done: nat, running: bool, out: Outputs): StepState {
    if j < done then MarkOk(Reported(st, run), StageDetail(j, out))
    else if j == done && running then Reported(st, run)
    else st
  }

  function Progressed(base: PipelineState, runs: seq<StageRun>, out: Outputs, filename: string,
                      done: nat, running: bool): PipelineState
    requires |runs| == 3 && HasStandardSteps(base.steps)
  {
    base.(steps := [(PREPROCESS, StepAfter(base.steps[0].1, runs[0], 0, done, running, out)),
                    (TRANSCRIBE, StepAfter(base.steps[1].1, runs[1], 1, done, running, out)),
                    (ANALYZE, StepAfter(base.steps[2].1, runs[2], 2, done, running, out))],
          result := ResultAfter(base.result, done, out, filename))
  }

  /** The record at the start of `run_pipeline`: the stored one, or a new one with the
      three stages; marked running with the cancel flag cleared, and the hash and folder
      overridden when given. */
  function Prepared(existing: Option<PipelineState>, jobId: string, filename: string,
                    fileHash: Option<string>, folderId: Option<int>): (r: PipelineState)
    requires existing.Some? ==> HasStandardSteps(existing.value.steps)
    ensures HasStandardSteps(r.steps) && r.status == RUNNING && !r.cancelled
    ensures existing.None? ==> r.steps == InitialSteps() && r.result == [] && r.error == None
    ensures fileHash.Some? && fileHash.value != [] ==> r.fileHash == fileHash
    ensures folderId.Some? ==> r.folderId == folderId
  {
    var s := if existing.Some? then existing.value else NewJob(jobId, filename, fileHash, folderId);
    s.(status := RUNNING, cancelled := false,
       fileHash := if fileHash.Some? && fileHash.value != [] then fileHash else s.fileHash,
       folderId := if folderId.Some? then folderId else s.folderId)
  }

  /** The record a run leaves, described stage by stage rather than in execution order. */
  function RunResult(base: PipelineState, runs: seq<StageRun>, out: Outputs, filename: string, cancelFrom: nat): PipelineState
    requires |runs| == 3 && HasStandardSteps(base.steps)
  {
    match EndingOf(Exits(runs), cancelFrom)
    case CancelledAt(k) =>
      Progressed(base, runs, out, filename, k / 2, k % 2 == 1)
        .(status := CANCELLED, error := Some(CANCELLED_BY_USER), cancelled := true)
    case FailedIn(i, e) =>
      var p := Progressed(base, runs, out, filename, i, true);
      p.(status := FAILED, error := Some(e), steps := p.steps[i := (p.steps[i].0, MarkFailed(p.steps[i].1, e))])
    case Finished =>
      Progressed(base, runs, out, filename, 3, false).(status := COMPLETED)
  }

  // ===========================================================================
  // run_pipeline

  predicate NoneRunningBefore(steps: seq<(string, StepState)>, i: nat)
    requires i <= |steps|
  {
    forall j :: 0 <= j < i ==> steps[j].1.status != Running
  }

  /** The `except` branch's loop: the first running step, in stage order, is marked
      failed; every other step is left as it is. */
  method FailFirstRunning(steps: seq<(string, StepState)>, error: string) returns (r: seq<(string, StepState)>)
    ensures forall i :: 0 <= i < |steps| && steps[i].1.status == Running && NoneRunningBefore(steps, i) ==>
      r == steps[i := (steps[i].0, MarkFailed(steps[i].1, error))]
    ensures (forall j :: 0 <= j < |steps| ==> steps[j].1.status != Running) ==> r == steps
  {
    r := steps;
    var i := 0;
    while i < |steps|
      invariant 0 <= i <= |steps|
      invariant forall j :: 0 <= j < i ==> steps[j].1.status != Running
    {
      if steps[i].1.status == Running {
        r := steps[i := (steps[i].0, MarkFailed(steps[i].1, error))];
        return;
      }
      i := i + 1;
    }
  }

  function WithStep(s: PipelineState, i: nat, st: StepState): (r: PipelineState)
    requires HasStandardSteps(s.steps) && i < 3
    ensures HasStandardSteps(r.steps)
  {
    s.(steps := s.steps[i := (s.steps[i].0, st)])
  }

  /** Stage `i` runs: it starts, reports, and either returns or raises; on a raise the
      run ends failed, with the first running step (this one) marked failed. */
  method RunStage(s: PipelineState, i: nat, run: StageRun) returns (t: PipelineState, raised: Option<string>)
    requires HasStandardSteps(s.steps) && i < 3
    requires forall j :: 0 <= j < i ==> s.steps[j].1.status != Running
    ensures raised == (if run.exit.Raised? then Some(run.exit.error) else None)
    ensures var p := WithStep(s, i, Reported(s.steps[i].1, run));
      t == if run.exit.Raised? then
        p.(status := FAILED, error := Some(run.exit.error),
           steps := p.steps[i := (p.steps[i].0, MarkFailed(p.steps[i].1, run.exit.error))])
      else p
  {
    t := WithStep(s, i, Reported(s.steps[i].1, run));
    raised := None;
    if run.exit.Raised? {
      var e := run.exit.error;
      t := t.(status := FAILED, error := Some(e));
      var steps := FailFirstRunning(t.steps, e);
      t := t.(steps := steps);
      raised := Some(e);
    }
  }

  /** A checkpoint that sees the cancel flag ends the run cancelled. */
  function CancelledRecord(s: PipelineState): PipelineState {
    s.(status := CANCELLED, error := Some(CANCELLED_BY_USER), cancelled := true)
  }

  /** Starting stage `i` after the stages before it completed. */
  lemma StageStarts(base: PipelineState, runs: seq<StageRun>, out: Outputs, filename: string, i: nat)
    requires |runs| == 3 && HasStandardSteps(base.steps) && i < 3
    ensures var p := Progressed(base, runs, out, filename, i, false);
      HasStandardSteps(p.steps) && NoneRunningBefore(p.steps, i) && p.steps[i].1 == base.steps[i].1 &&
      WithStep(p, i, Reported(p.steps[i].1, runs[i])) == Progressed(base, runs, out, filename, i, true)
  {
    var p := Progressed(base, runs, out, filename, i, false);
    var q := Progressed(base, runs, out, filename, i, true);
    var w := WithStep(p, i, Reported(p.steps[i].1, runs[i]));
    assert w.steps == q.steps;
  }

  /** Completing stage `i` after it returned. */
  lemma StageCompletes(base: PipelineState, runs: seq<StageRun>, out: Outputs, filename: string, i: nat)
    requires |runs| == 3 && HasStandardSteps(base.steps) && i < 3
    ensures var p := Progressed(base, runs, out, filename, i, true);
      var n := Progressed(base, runs, out, filename, i + 1, false);
      HasStandardSteps(p.steps) &&
      WithStep(p, i, MarkOk(p.steps[i].1, StageDetail(i, out))).steps == n.steps
  {
    var p := Progressed(base, runs, out, filename, i, true);
    var n := Progressed(base, runs, out, filename, i + 1, false);
    var w := WithStep(p, i, MarkOk(p.steps[i].1, StageDetail(i, out)));
    assert w.steps == n.steps;
  }

  /** Stage `i` raising ends the run failed, as `RunResult` describes. */
  lemma StageFails(base: PipelineState, runs: seq<StageRun>, out: Outputs, filename: string, cancelFrom: nat, i: nat)
    requires |runs| == 3 && HasStandardSteps(base.steps) && i < 3
    requires runs[i].exit.Raised? && EndingOf(Exits(runs), cancelFrom) == FailedIn(i, runs[i].exit.error)
    ensures var p := Progressed(base, runs, out, filename, i, true);
      RunResult(base, runs, out, filename, cancelFrom) ==
        p.(status := FAILED, error := Some(runs[i].exit.error),
           steps := p.steps[i := (p.steps[i].0, MarkFailed(p.steps[i].1, runs[i].exit.error))])
  {
  }

  /** A checkpoint seeing the flag ends the run cancelled, as `RunResult` describes. */
  lemma CheckpointCancels(base: PipelineState, runs: seq<StageRun>, out: Outputs, filename: string, cancelFrom: nat)
    requires |runs| == 3 && HasStandardSteps(base.steps)
    requires EndingOf(Exits(runs), cancelFrom) == CancelledAt(cancelFrom)
    ensures RunResult(base, runs, out, filename, cancelFrom) ==
      CancelledRecord(Progressed(base, runs, out, filename, cancelFrom / 2, cancelFrom % 2 == 1))
  {
  }

  /** Before stage 0 the record is the prepared one. */
  lemma NothingProgressed(base: PipelineState, runs: seq<StageRun>, out: Outputs, filename: string)
    requires |runs| == 3 && HasStandardSteps(base.steps)
    ensures Progressed(base, runs, out, filename, 0, false) == base
  {
    assert Progressed(base, runs, out, filename, 0, false).steps == base.steps;
  }

  /** A run whose stages all returned and whose checkpoints never saw the flag completes. */
  lemma RunFinishes(base: PipelineState, runs: seq<StageRun>, out: Outputs, filename: string, cancelFrom: nat)
    requires |runs| == 3 && HasStandardSteps(base.steps)
    requires 6 <= cancelFrom && forall j :: 0 <= j < 3 ==> runs[j].exit.Returned?
    ensures EndingOf(Exits(runs), cancelFrom) == Finished
    ensures RunResult(base, runs, out, filename, cancelFrom) == Progressed(base, runs, out, filename, 3, false).(status := COMPLETED)
  {
  }

  /** One stage of `run_pipeline`: the checkpoint before it, the stage, the checkpoint
      after it, then its completion and the result entries it writes. It either stops the
      run (`stop`), leaving the record `RunResult` describes, or hands on the record with
      one more stage completed. */
  method StageBlock(s: PipelineState, i: nat, cancelFrom: nat,
                    ghost base: PipelineState, runs: seq<StageRun>, out: Outputs, filename: string)
    returns (t: PipelineState, raised: Option<string>, stop: bool)
    requires |runs| == 3 && HasStandardSteps(base.steps) && i < 3
    requires s == Progressed(base, runs, out, filename, i, false)
    requires 2 * i <= cancelFrom && forall j :: 0 <= j < i ==> runs[j].exit.Returned?
    ensures stop ==> t == RunResult(base, runs, out, filename, cancelFrom)
    ensures stop ==> (raised.Some? <==> EndingOf(Exits(runs), cancelFrom).FailedIn?)
    ensures stop && raised.Some? ==> raised == Some(EndingOf(Exits(runs), cancelFrom).error)
    ensures !stop ==> t == Progressed(base, runs, out, filename, i + 1, false) && raised == None
    ensures !stop ==> 2 * i + 2 <= cancelFrom && forall j :: 0 <= j <= i ==> runs[j].exit.Returned?
  {
    stop := true;
    raised := None;
    if cancelFrom <= 2 * i {
      CheckpointCancels(base, runs, out, filename, cancelFrom);
      t := CancelledRecord(s);
      return;
    }
    StageStarts(base, runs, out, filename, i);
    t, raised := RunStage(s, i, runs[i]);
    if raised.Some? {
      StageFails(base, runs, out, filename, cancelFrom, i);
      return;
    }
    if cancelFrom <= 2 * i + 1 {
      CheckpointCancels(base, runs, out, filename, cancelFrom);
      t := CancelledRecord(t);
      return;
    }
    StageCompletes(base, runs, out, filename, i);
    t := WithStep(t, i, MarkOk(t.steps[i].1, StageDetail(i, out)));
    t := t.(result := StageResult(t.result, i, out, filename));
    stop := false;
  }

  /** `run_pipeline`: prepare the record, then run the three stages in order. The record
      it leaves is the one `RunResult` describes, and it re-raises exactly when a stage
      raised before the cancel flag was seen. The indexing calls after completion swallow
      their errors and do not touch the record. */
  method RunPipeline(existing: Option<PipelineState>, jobId: string, filename: string,
                     fileHash: Option<string>, folderId: Option<int>,
                     runs: seq<StageRun>, out: Outputs, cancelFrom: nat)
    returns (s: PipelineState, raised: Option<string>)
    requires |runs| == 3
    requires existing.Some? ==> HasStandardSteps(existing.value.steps)
    ensures s == RunResult(Prepared(existing, jobId, filename, fileHash, folderId), runs, out, filename, cancelFrom)
    ensures raised.Some? <==> EndingOf(Exits(runs), cancelFrom).FailedIn?
    ensures raised.Some? ==> raised == Some(EndingOf(Exits(runs), cancelFrom).error)
  {
    s := Prepared(existing, jobId, filename, fileHash, folderId);
    ghost var base := s;
    NothingProgressed(base, runs, out, filename);
    var stop;
    s, raised, stop := StageBlock(s, 0, cancelFrom, base, runs, out, filename);
    if stop {
      return;
    }
    s, raised, stop := StageBlock(s, 1, cancelFrom, base, runs, out, filename);
    if stop {
      return;
    }
    s, raised, stop := StageBlock(s, 2, cancelFrom, base, runs, out, filename);
    if stop {
      return;
    }
    RunFinishes(base, runs, out, filename, cancelFrom);
    s := s.(status := COMPLETED);
  }

  // ===========================================================================
  // The three ways a run ends

  /** Every run ends with the job completed, failed or cancelled. */
  lemma RunEndsTerminal(base: PipelineState, runs: seq<StageRun>, out: Outputs, filename: string, cancelFrom: nat)
    requires |runs| == 3 && HasStandardSteps(base.steps)
    ensures IsTerminal(RunResult(base, runs, out, filename, cancelFrom).status)
  {
  }

  /** A run changes neither the record's identity nor its file hash or folder. */
  lemma RunKeepsIdentity(base: PipelineState, runs: seq<StageRun>, out: Outputs, filename: string, cancelFrom: nat)
    requires |runs| == 3 && HasStandardSteps(base.steps)
    ensures var r := RunResult(base, runs, out, filename, cancelFrom);
      r.jobId == base.jobId && r.originalFilename == base.originalFilename &&
      r.fileHash == base.fileHash && r.folderId == base.folderId
  {
  }

  /** Stage `j`'s step at the end of a run that ended with `e`. */
  function FinalStep(e: Ending, j: nat, st: StepState, run: StageRun, out: Outputs): StepState {
    match e
    case CancelledAt(k) => StepAfter(st, run, j, k / 2, k % 2 == 1, out)
    case FailedIn(i, err) => if j == i then MarkFailed(Reported(st, run), err) else StepAfter(st, run, j, i, true, out)
    case Finished => StepAfter(st, run, j, 3, false, out)
  }

  /** The steps a run leaves, stage by stage. */
  lemma RunResultSteps(base: PipelineState, runs: seq<StageRun>, out: Outputs, filename: string, cancelFrom: nat)
    requires |runs| == 3 && HasStandardSteps(base.steps)
    ensures var r := RunResult(base, runs, out, filename, cancelFrom);
      var e := EndingOf(Exits(runs), cancelFrom);
      HasStandardSteps(r.steps) &&
      forall j :: 0 <= j < 3 ==> r.steps[j].1 == FinalStep(e, j, base.steps[j].1, runs[j], out)
  {
    var e := EndingOf(Exits(runs), cancelFrom);
    match e
    case CancelledAt(k) =>
      ProgressedSteps(base, runs, out, filename, k / 2, k % 2 == 1);
    case FailedIn(i, err) =>
      ProgressedSteps(base, runs, out, filename, i, true);
    case Finished =>
      ProgressedSteps(base, runs, out, filename, 3, false);
  }

  /** Cancellation seen at a checkpoint: the job is cancelled "by user", no step is marked
      failed by the run, and the stages not yet started keep their steps. */
  lemma CancelledOutcome(base: PipelineState, runs: seq<StageRun>, out: Outputs, filename: string, cancelFrom: nat)
    requires |runs| == 3 && HasStandardSteps(base.steps)
    requires EndingOf(Exits(runs), cancelFrom).CancelledAt?
    ensures var r := RunResult(base, runs, out, filename, cancelFrom);
      && r.status == CANCELLED && r.error == Some(CANCELLED_BY_USER) && r.cancelled
      && HasStandardSteps(r.steps)
      && (forall j :: 0 <= j < 3 && r.steps[j].1.status == Failed ==> base.steps[j].1.status == Failed)
      && (forall j :: 0 <= j < 3 && cancelFrom <= 2 * j ==> r.steps[j] == base.steps[j])
  {
    RunResultSteps(base, runs, out, filename, cancelFrom);
  }

  /** A stage raising: the job fails with the stage's error, that stage alone is marked
      failed, the stages before it are completed and the stages after it are untouched. */
  lemma FailedOutcome(base: PipelineState, runs: seq<StageRun>, out: Outputs, filename: string, cancelFrom: nat)
    requires |runs| == 3 && HasStandardSteps(base.steps)
    requires EndingOf(Exits(runs), cancelFrom).FailedIn?
    ensures var r := RunResult(base, runs, out, filename, cancelFrom);
      r.status == FAILED && r.error == Some(EndingOf(Exits(runs), cancelFrom).error) && r.cancelled == base.cancelled
    ensures var e := EndingOf(Exits(runs), cancelFrom);
      var r := RunResult(base, runs, out, filename, cancelFrom);
      HasStandardSteps(r.steps) && e.stage < 3 &&
      r.steps[e.stage].1 == MarkFailed(Reported(base.steps[e.stage].1, runs[e.stage]), e.error)
    ensures var e := EndingOf(Exits(runs), cancelFrom);
      var r := RunResult(base, runs, out, filename, cancelFrom);
      forall j :: 0 <= j < e.stage ==> r.steps[j].1.status == Completed
    ensures var e := EndingOf(Exits(runs), cancelFrom);
      var r := RunResult(base, runs, out, filename, cancelFrom);
      forall j :: e.stage < j < 3 ==> r.steps[j] == base.steps[j]
  {
    RunResultSteps(base, runs, out, filename, cancelFrom);
    var e := EndingOf(Exits(runs), cancelFrom);
    var r := RunResult(base, runs, out, filename, cancelFrom);
    var p := Progressed(base, runs, out, filename, e.stage, true);
    assert r == p.(status := FAILED, error := Some(e.error),
                   steps := p.steps[e.stage := (p.steps[e.stage].0, MarkFailed(p.steps[e.stage].1, e.error))]);
    forall j | e.stage < j < 3 ensures r.steps[j] == base.steps[j] {
      assert r.steps[j].0 == base.steps[j].0;
    }
  }

  /** The result entries of a completed run: the audio flag, the transcription and its
      segments, the findings and the file name, each under its own key. */
  lemma CompletedResult(result: seq<(string, Value)>, out: Outputs, filename: string)
    ensures var r := ResultAfter(result, 3, out, filename);
      var f := Analysis.AnalyzeLlm(out.transcription, out.fromModel);
      && Lookup(r, "audio_ready") == Some(Bool(true))
      && Lookup(r, "transcription") == Some(Str(out.transcription))
      && Lookup(r, "timestamps") == Some(List(out.timestamps))
      && Lookup(r, "main_topic") == Some(Str(f.mainTopic))
      && Lookup(r, "subtopics") == Some(List(Strs(f.subtopics)))
      && Lookup(r, "truth_statements_md") == Some(Str(f.truthStatementsMd))
      && Lookup(r, "original_filename") == Some(Str(filename))
  {
    assert ResultAfter(result, 0, out, filename) == result;
    CompletedEarlyEntries(result, out, filename);
    CompletedFindings(result, out, filename);
  }

  /** The entries of the first two stages survive the third. */
  lemma CompletedEarlyEntries(result: seq<(string, Value)>, out: Outputs, filename: string)
    requires ResultAfter(result, 0, out, filename) == result
    ensures var r := ResultAfter(result, 3, out, filename);
      && Lookup(r, "audio_ready") == Some(Bool(true))
      && Lookup(r, "transcription") == Some(Str(out.transcription))
      && Lookup(r, "timestamps") == Some(List(out.timestamps))
  {
    var r1 := ResultAfter(result, 1, out, filename);
    var r2 := ResultAfter(result, 2, out, filename);
    var e0, e1, e2 := StageEntries(0, out, filename), StageEntries(1, out, filename), StageEntries(2, out, filename);
    LookupAt(e0, "audio_ready", 0);
    LookupAt(e1, "transcription", 0);
    LookupAt(e1, "timestamps", 1);
    ResultKeyLookup(result, e0, r1, e1, r2, e2, "audio_ready");
    ResultKeyLookup(result, e0, r1, e1, r2, e2, "transcription");
    ResultKeyLookup(result, e0, r1, e1, r2, e2, "timestamps");
  }

  /** The third stage's entries are the findings and the file name. */
  lemma CompletedFindings(result: seq<(string, Value)>, out: Outputs, filename: string)
    requires ResultAfter(result, 0, out, filename) == result
    ensures var r := ResultAfter(result, 3, out, filename);
      var f := Analysis.AnalyzeLlm(out.transcription, out.fromModel);
      && Lookup(r, "main_topic") == Some(Str(f.mainTopic))
      && Lookup(r, "subtopics") == Some(List(Strs(f.subtopics)))
      && Lookup(r, "truth_statements_md") == Some(Str(f.truthStatementsMd))
      && Lookup(r, "original_filename") == Some(Str(filename))
  {
    var r2 := ResultAfter(result, 2, out, filename);
    var e2 := StageEntries(2, out, filename);
    LookupAt(e2, "main_topic", 0);
    LookupAt(e2, "subtopics", 1);
    LookupAt(e2, "truth_statements_md", 2);
    LookupAt(e2, "original_filename", 3);
    AssignAllLookup(r2, e2, "main_topic");
    AssignAllLookup(r2, e2, "subtopics");
    AssignAllLookup(r2, e2, "truth_statements_md");
    AssignAllLookup(r2, e2, "original_filename");
  }

  lemma ResultKeyLookup(r0: seq<(string, Value)>, e0: seq<(string, Value)>, r1: seq<(string, Value)>,
                        e1: seq<(string, Value)>, r2: seq<(string, Value)>, e2: seq<(string, Value)>, k: string)
    requires DistinctKeys(e0) && DistinctKeys(e1) && DistinctKeys(e2)
    requires r1 == AssignAll(r0, e0) && r2 == AssignAll(r1, e1)
    ensures Lookup(AssignAll(r2, e2), k) ==
      if HasKey(e2, k) then Lookup(e2, k) else if HasKey(e1, k) then Lookup(e1, k)
      else if HasKey(e0, k) then Lookup(e0, k) else Lookup(r0, k)
  {
    AssignAllLookup(r0, e0, k);
    AssignAllLookup(r1, e1, k);
    AssignAllLookup(r2, e2, k);
  }

  /** The steps a run leaves after completing stages `0..done-1`, each under its own key. */
  lemma ProgressedSteps(base: PipelineState, runs: seq<StageRun>, out: Outputs, filename: string, done: nat, running: bool)
    requires |runs| == 3 && HasStandardSteps(base.steps)
    ensures var p := Progressed(base, runs, out, filename, done, running);
      HasStandardSteps(p.steps) &&
      forall j :: 0 <= j < 3 ==> p.steps[j].1 == StepAfter(base.steps[j].1, runs[j], j, done, running, out)
  {
  }

  /** A job is completed exactly when every stage returned and no checkpoint saw the cancel flag. */
  lemma CompletedExactly(base: PipelineState, runs: seq<StageRun>, out: Outputs, filename: string, cancelFrom: nat)
    requires |runs| == 3 && HasStandardSteps(base.steps)
    ensures var r := RunResult(base, runs, out, filename, cancelFrom);
      r.status == COMPLETED <==> 5 < cancelFrom && forall i :: 0 <= i < 3 ==> runs[i].exit.Returned?
  {
    var e := EndingOf(Exits(runs), cancelFrom);
    assert e.Finished? <==> 5 < cancelFrom && forall i :: 0 <= i < 3 ==> runs[i].exit.Returned? by {
      assert forall i :: 0 <= i < 3 ==> Exits(runs)[i] == runs[i].exit;
    }
  }

  /** A completed job has its three steps done at 100% and its result holds the findings. */
  lemma CompletedOutcome(base: PipelineState, runs: seq<StageRun>, out: Outputs, filename: string, cancelFrom: nat)
    requires |runs| == 3 && HasStandardSteps(base.steps)
    requires 5 < cancelFrom && forall i :: 0 <= i < 3 ==> runs[i].exit.Returned?
    ensures var r := RunResult(base, runs, out, filename, cancelFrom);
      var f := Analysis.AnalyzeLlm(out.transcription, out.fromModel);
        && r.status == COMPLETED && HasStandardSteps(r.steps)
        && (forall j :: 0 <= j < 3 ==> r.steps[j].1.status == Completed && r.steps[j].1.message == "Done" &&
                                       r.steps[j].1.progress == 100.0 && r.steps[j].1.eta == None)
        && Lookup(r.result, "audio_ready") == Some(Bool(true))
        && Lookup(r.result, "transcription") == Some(Str(out.transcription))
        && Lookup(r.result, "timestamps") == Some(List(out.timestamps))
        && Lookup(r.result, "main_topic") == Some(Str(f.mainTopic))
        && Lookup(r.result, "subtopics") == Some(List(Strs(f.subtopics)))
        && Lookup(r.result, "truth_statements_md") == Some(Str(f.truthStatementsMd))
        && Lookup(r.result, "original_filename") == Some(Str(filename))
  {
    RunFinishes(base, runs, out, filename, cancelFrom);
    ProgressedSteps(base, runs, out, filename, 3, false);
    CompletedResult(base.result, out, filename);
  }

  /** A run keeps every step's percentage in [0, 100] with an ETA only strictly inside. */
  lemma RunKeepsStepsWellFormed(base: PipelineState, runs: seq<StageRun>, out: Outputs, filename: string, cancelFrom: nat)
    requires |runs| == 3 && HasStandardSteps(base.steps)
    requires forall j :: 0 <= j < 3 ==> StepWellFormed(base.steps[j].1)
    ensures var r := RunResult(base, runs, out, filename, cancelFrom);
      HasStandardSteps(r.steps) && forall j :: 0 <= j < 3 ==> StepWellFormed(r.steps[j].1)
  {
    RunResultSteps(base, runs, out, filename, cancelFrom);
    var e := EndingOf(Exits(runs), cancelFrom);
    forall j | 0 <= j < 3 ensures StepWellFormed(FinalStep(e, j, base.steps[j].1, runs[j], out)) {
      FinalStepWellFormed(e, j, base.steps[j].1, runs[j], out);
    }
  }

  lemma FinalStepWellFormed(e: Ending, j: nat, st: StepState, run: StageRun, out: Outputs)
    requires StepWellFormed(st)
    ensures StepWellFormed(FinalStep(e, j, st, run, out))
  {
  }
}
