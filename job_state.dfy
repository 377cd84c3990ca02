/**
  * The per-job record the runner keeps and publishes: step states, job status, result
  * payload, and its conversion to and from the dictionaries written as JSON.
  */
module JobState {
  import opened Wrappers
  import opened Values
  import Text

  /** Status of one pipeline stage. */
  datatype StepStatus = Pending | Running | Completed | Failed | Skipped {
    function Text(): string {
      match this
      case Pending => "pending"
      case Running => "running"
      case Completed => "completed"
      case Failed => "failed"
      case Skipped => "skipped"
    }
  }

  /** `StepStatus(v.get("status", "pending"))`, where an unknown value reads as Pending. */
  function StepStatusFrom(v: Option<Value>): (r: StepStatus)
    ensures r != Pending ==> v == Some(Str(r.Text()))
    ensures forall st: StepStatus :: v == Some(Str(st.Text())) ==> r == st
  {
    match v
    case Some(Str(t)) =>
      if t == "running" then Running
      else if t == "completed" then Completed
      else if t == "failed" then Failed
      else if t == "skipped" then Skipped
      else Pending
    case _ => Pending
  }

  /** Job-level status values. */
  const PENDING: string := "pending"
  const RUNNING: string := "running"
  const COMPLETED: string := "completed"
  const FAILED: string := "failed"
  const CANCELLED: string := "cancelled"

  predicate IsTerminal(status: string) {
    status == COMPLETED || status == FAILED || status == CANCELLED
  }

  datatype StepState = StepState(
    name: string,
    status: StepStatus,
    message: string,
    detail: string,
    progress: real,
    eta: Option<real>,
    startTime: Option<real>)

  function NewStep(name: string): StepState {
    StepState(name, Pending, "", "", 0.0, None, None)
  }

  /** The job record. `steps` and `result` are ordered dictionaries. */
  datatype PipelineState = PipelineState(
    jobId: string,
    originalFilename: string,
    status: string,
    steps: seq<(string, StepState)>,
    result: seq<(string, Value)>,
    error: Option<string>,
    cancelled: bool,
    fileHash: Option<string>,
    folderId: Option<int>)

  const PREPROCESS: string := "preprocess"
  const TRANSCRIBE: string := "transcribe"
  const ANALYZE: string := "analyze"

  /** The three stages of every job, in order, each pending. */
  function InitialSteps(): (r: seq<(string, StepState)>)
    ensures HasStandardSteps(r) && DistinctKeys(r)
    ensures forall i :: 0 <= i < |r| ==> r[i].1.status == Pending && r[i].1.startTime == None
  {
    [(PREPROCESS, NewStep("Preprocess audio")),
     (TRANSCRIBE, NewStep("Transcribe (Whisper)")),
     (ANALYZE, NewStep("Extract topics & truth statements"))]
  }

  predicate HasStandardSteps(steps: seq<(string, StepState)>) {
    |steps| == 3 && steps[0].0 == PREPROCESS && steps[1].0 == TRANSCRIBE && steps[2].0 == ANALYZE
  }

  lemma StandardStepsDistinct(steps: seq<(string, StepState)>)
    requires HasStandardSteps(steps)
    ensures DistinctKeys(steps)
  {
    assert PREPROCESS[0] == 'p' && TRANSCRIBE[0] == 't' && ANALYZE[0] == 'a';
  }

  /** A record built with the dataclass defaults and the three initial stages. */
  function NewJob(jobId: string, originalFilename: string, fileHash: Option<string>, folderId: Option<int>): PipelineState {
    PipelineState(jobId, originalFilename, PENDING, InitialSteps(), [], None, false, fileHash, folderId)
  }

  // ---------------------------------------------------------------------------
  // Conversion to dictionaries

  function OptStrValue(o: Option<string>): Value {
    match o
    case Some(s) => Str(s)
    case None => Null
  }

  function OptRealValue(o: Option<real>): Value {
    match o
    case Some(r) => Float(r)
    case None => Null
  }

  function OptIntValue(o: Option<int>): Value {
    match o
    case Some(i) => Int(i)
    case None => Null
  }

  /** One step as `to_dict` writes it; `start_time` is not written. */
  function StepToValue(st: StepState): Value {
    Dict([("name", Str(st.name)),
          ("status", Str(st.status.Text())),
          ("message", Str(st.message)),
          ("detail", Str(st.detail)),
          ("progress", Float(st.progress)),
          ("eta_seconds", OptRealValue(st.eta))])
  }

  function EncodeSteps(steps: seq<(string, StepState)>): (r: seq<(string, Value)>)
    ensures |r| == |steps| && forall i :: 0 <= i < |r| ==> r[i].0 == steps[i].0
  {
    if steps == [] then []
    else [(steps[0].0, StepToValue(steps[0].1))] + EncodeSteps(steps[1..])
  }

  /** `to_dict`: the dictionary served to the UI. */
  function ToDictEntries(s: PipelineState): seq<(string, Value)> {
    [("job_id", Str(s.jobId)),
     ("original_filename", Str(s.originalFilename)),
     ("status", Str(s.status)),
     ("steps", Dict(EncodeSteps(s.steps))),
     ("result", Dict(s.result)),
     ("error", OptStrValue(s.error)),
     ("folder_id", OptIntValue(s.folderId))]
  }

  function ToDict(s: PipelineState): Value {
    Dict(ToDictEntries(s))
  }

  /** `to_persist_dict`: the UI dictionary with `file_hash` added. */
  function ToPersistDict(s: PipelineState): (r: Value)
    ensures r.Dict? && r.entries == ToDictEntries(s) + [("file_hash", OptStrValue(s.fileHash))]
  {
    var d := ToDictEntries(s);
    assert !HasKey(d, "file_hash") by {
      forall i | 0 <= i < |d| ensures d[i].0 != "file_hash" {
      }
    }
    Dict(Assign(d, "file_hash", OptStrValue(s.fileHash)))
  }

  // ---------------------------------------------------------------------------
  // Conversion from dictionaries

  /** `d.get(key, default)` for a string field; a value that is not a string reads as the default. */
  function StrOr(v: Option<Value>, default: string): string {
    match v
    case Some(Str(s)) => s
    case _ => default
  }

  /** `d.get(key)` for an optional string field. */
  function OptStrOf(v: Option<Value>): Option<string> {
    match v
    case Some(Str(s)) => Some(s)
    case _ => None
  }

  function OptRealOf(v: Option<Value>): Option<real> {
    match v
    case Some(x) => RealOf(x)
    case None => None
  }

  /** `folder_id` after `int(fid)`, where a value `int` refuses reads as None. */
  function FolderIdOf(v: Option<Value>): (r: Option<int>)
    ensures v == None || v == Some(Null) ==> r == None
    ensures v.Some? && v.value.Str? ==> r == Text.ParseInt(v.value.s)
    ensures v.Some? && v.value.Int? ==> r == Some(v.value.i)
  {
    match v
    case None => None
    case Some(Null) => None
    case Some(x) => IntOf(x)
  }

  /** One step entry of `from_dict`; the step's name defaults to its key. */
  function DecodeStep(key: string, e: seq<(string, Value)>): StepState {
    StepState(
      StrOr(Lookup(e, "name"), key),
      StepStatusFrom(Lookup(e, "status")),
      StrOr(Lookup(e, "message"), ""),
      StrOr(Lookup(e, "detail"), ""),
      match Lookup(e, "progress") case Some(x) => RealOf(x).GetOr(0.0) case None => 0.0,
      OptRealOf(Lookup(e, "eta_seconds")),
      OptRealOf(Lookup(e, "start_time")))
  }

  /** The loop of `from_dict` over the step entries, where entries that are not dictionaries are skipped. */
  function DecodeSteps(entries: seq<(string, Value)>, acc: seq<(string, StepState)>): (r: seq<(string, StepState)>)
    ensures DistinctKeys(acc) ==> DistinctKeys(r)
    ensures |r| <= |acc| + |entries|
    decreases |entries|
  {
    if entries == [] then acc
    else
      var next :=
        if entries[0].1.Dict? then Assign(acc, entries[0].0, DecodeStep(entries[0].0, entries[0].1.entries))
        else acc;
      assert |next| <= |acc| + 1 by {
        if entries[0].1.Dict? && HasKey(acc, entries[0].0) {
          AssignSameLength(acc, entries[0].0, DecodeStep(entries[0].0, entries[0].1.entries));
        }
      }
      assert DistinctKeys(acc) ==> DistinctKeys(next) by {
        if DistinctKeys(acc) && entries[0].1.Dict? {
          AssignDistinct(acc, entries[0].0, DecodeStep(entries[0].0, entries[0].1.entries));
        }
      }
      DecodeSteps(entries[1..], next)
  }

  /** `d.get("steps") or {}`: None where a truthy non-dictionary makes `.items()` raise. */
  function StepEntries(v: Option<Value>): Option<seq<(string, Value)>> {
    match v
    case None => Some([])
    case Some(x) => if !Truthy(x) then Some([]) else if x.Dict? then Some(x.entries) else None
  }

  /** `d.get("result") or {}`; a truthy value that is not a dictionary reads as empty. */
  function ResultOf(v: Option<Value>): seq<(string, Value)> {
    match v
    case Some(Dict(e)) => e
    case _ => []
  }

  /** `from_dict`: None where the source raises. */
  function FromDict(v: Value): (r: Option<PipelineState>)
    ensures r.Some? <==> v.Dict? && StepEntries(Lookup(v.entries, "steps")).Some?
    ensures r.Some? ==> !r.value.cancelled && DistinctKeys(r.value.steps)
    ensures r.Some? ==> r.value.folderId == FolderIdOf(Lookup(v.entries, "folder_id"))
  {
    match v
    case Dict(d) =>
      var stepEntries := StepEntries(Lookup(d, "steps"));
      if stepEntries.None? then None
      else
        Some(PipelineState(
          StrOr(Lookup(d, "job_id"), ""),
          StrOr(Lookup(d, "original_filename"), ""),
          StrOr(Lookup(d, "status"), PENDING),
          DecodeSteps(stepEntries.value, []),
          ResultOf(Lookup(d, "result")),
          OptStrOf(Lookup(d, "error")),
          false,
          OptStrOf(Lookup(d, "file_hash")),
          FolderIdOf(Lookup(d, "folder_id"))))
    case _ => None
  }

  // ---------------------------------------------------------------------------
  // Round trips

  /** What a dictionary does not carry: step start times and the cancel flag. */
  function ClearStarts(steps: seq<(string, StepState)>): (r: seq<(string, StepState)>)
    ensures |r| == |steps|
  {
    if steps == [] then []
    else [(steps[0].0, steps[0].1.(startTime := None))] + ClearStarts(steps[1..])
  }

  function WithoutRuntime(s: PipelineState): PipelineState {
    s.(steps := ClearStarts(s.steps), cancelled := false)
  }

  lemma DecodeStepFields(key: string, e: seq<(string, Value)>, st: StepState)
    requires Lookup(e, "name") == Some(Str(st.name))
    requires Lookup(e, "status") == Some(Str(st.status.Text()))
    requires Lookup(e, "message") == Some(Str(st.message))
    requires Lookup(e, "detail") == Some(Str(st.detail))
    requires Lookup(e, "progress") == Some(Float(st.progress))
    requires Lookup(e, "eta_seconds") == Some(OptRealValue(st.eta))
    requires Lookup(e, "start_time") == None
    ensures DecodeStep(key, e) == st.(startTime := None)
  {
  }

  lemma StepRoundTrip(key: string, st: StepState)
    ensures DecodeStep(key, StepToValue(st).entries) == st.(startTime := None)
  {
    var e := StepToValue(st).entries;
    LookupAt(e, "name", 0);
    LookupAt(e, "status", 1);
    LookupAt(e, "message", 2);
    LookupAt(e, "detail", 3);
    LookupAt(e, "progress", 4);
    LookupAt(e, "eta_seconds", 5);
    assert !HasKey(e, "start_time");
    LookupHasKey(e, "start_time");
    DecodeStepFields(key, e, st);
  }

  /** Each entry of `entries` is a dictionary that decodes to the matching step of `out` under its own key. */
  predicate DecodesTo(entries: seq<(string, Value)>, out: seq<(string, StepState)>) {
    |entries| == |out| &&
    (entries != [] ==>
      entries[0].1.Dict? && out[0] == (entries[0].0, DecodeStep(entries[0].0, entries[0].1.entries)) &&
      DecodesTo(entries[1..], out[1..]))
  }

  predicate FreshKeys(entries: seq<(string, Value)>, acc: seq<(string, StepState)>) {
    DistinctKeys(entries) && forall i :: 0 <= i < |entries| ==> !HasKey(acc, entries[i].0)
  }

  lemma FreshKeysTail(entries: seq<(string, Value)>, acc: seq<(string, StepState)>, x: StepState)
    requires entries != [] && FreshKeys(entries, acc)
    ensures FreshKeys(entries[1..], acc + [(entries[0].0, x)])
  {
    var k := entries[0].0;
    var acc' := acc + [(k, x)];
    forall i | 0 <= i < |entries[1..]| ensures !HasKey(acc', entries[1..][i].0) {
      assert entries[1..][i] == entries[i + 1];
      AppendKey(acc, k, x, entries[i + 1].0);
    }
    assert DistinctKeys(entries[1..]) by {
      forall i, j | 0 <= i < j < |entries[1..]| ensures entries[1..][i].0 != entries[1..][j].0 {
        assert entries[1..][i] == entries[i + 1] && entries[1..][j] == entries[j + 1];
      }
    }
  }

  /** One turn of the decoding loop: a dictionary entry under a fresh key is appended. */
  lemma DecodeStepsHead(entries: seq<(string, Value)>, acc: seq<(string, StepState)>, out: seq<(string, StepState)>)
    requires entries != [] && DecodesTo(entries, out) && FreshKeys(entries, acc)
    ensures DecodeSteps(entries, acc) == DecodeSteps(entries[1..], acc + [out[0]])
    ensures DecodesTo(entries[1..], out[1..]) && FreshKeys(entries[1..], acc + [out[0]])
  {
    assert !HasKey(acc, entries[0].0);
    assert Assign(acc, entries[0].0, out[0].1) == acc + [out[0]];
    FreshKeysTail(entries, acc, out[0].1);
  }

  lemma ConcatShift<T>(a: seq<T>, b: seq<T>)
    requires b != []
    ensures a + b == (a + [b[0]]) + b[1..]
  {
  }

  /** Decoding entries that are all dictionaries under fresh, distinct keys appends one step per entry. */
  lemma {:induction false} DecodeStepsFresh(entries: seq<(string, Value)>, acc: seq<(string, StepState)>, out: seq<(string, StepState)>)
    requires DecodesTo(entries, out) && FreshKeys(entries, acc)
    ensures DecodeSteps(entries, acc) == acc + out
    decreases |entries|
  {
    if entries != [] {
      DecodeStepsHead(entries, acc, out);
      DecodeStepsFresh(entries[1..], acc + [out[0]], out[1..]);
      ConcatShift(acc, out);
    } else {
      assert out == [];
    }
  }

  lemma {:induction false} EncodeDecodesTo(steps: seq<(string, StepState)>)
    ensures DecodesTo(EncodeSteps(steps), ClearStarts(steps))
  {
    if steps != [] {
      StepRoundTrip(steps[0].0, steps[0].1);
      EncodeDecodesTo(steps[1..]);
      assert EncodeSteps(steps)[1..] == EncodeSteps(steps[1..]);
      assert ClearStarts(steps)[1..] == ClearStarts(steps[1..]);
    }
  }

  lemma DecodeEncodeSteps(steps: seq<(string, StepState)>)
    requires DistinctKeys(steps)
    ensures DecodeSteps(EncodeSteps(steps), []) == ClearStarts(steps)
  {
    var enc := EncodeSteps(steps);
    EncodeDecodesTo(steps);
    assert DistinctKeys(enc) by {
      forall i, j | 0 <= i < j < |enc| ensures enc[i].0 != enc[j].0 {
        assert enc[i].0 == steps[i].0 && enc[j].0 == steps[j].0;
      }
    }
    DecodeStepsFresh(enc, [], ClearStarts(steps));
    assert [] + ClearStarts(steps) == ClearStarts(steps);
  }

  lemma AppendKey<V>(acc: seq<(string, V)>, k: string, x: V, key: string)
    ensures HasKey(acc + [(k, x)], key) <==> HasKey(acc, key) || key == k
  {
    if HasKey(acc + [(k, x)], key) && key != k {
      var i :| 0 <= i < |acc + [(k, x)]| && (acc + [(k, x)])[i].0 == key;
      assert acc[i].0 == key;
    }
    if key == k {
      assert (acc + [(k, x)])[|acc|].0 == key;
    }
    if HasKey(acc, key) {
      var i :| 0 <= i < |acc| && acc[i].0 == key;
      assert (acc + [(k, x)])[i].0 == key;
    }
  }

  /** `from_dict` on a dictionary holding exactly the fields `to_dict` writes for `s`. */
  lemma FromDictFields(d: seq<(string, Value)>, s: PipelineState, fileHash: Option<Value>)
    requires DistinctKeys(s.steps)
    requires Lookup(d, "job_id") == Some(Str(s.jobId))
    requires Lookup(d, "original_filename") == Some(Str(s.originalFilename))
    requires Lookup(d, "status") == Some(Str(s.status))
    requires Lookup(d, "steps") == Some(Dict(EncodeSteps(s.steps)))
    requires Lookup(d, "result") == Some(Dict(s.result))
    requires Lookup(d, "error") == Some(OptStrValue(s.error))
    requires Lookup(d, "folder_id") == Some(OptIntValue(s.folderId))
    requires Lookup(d, "file_hash") == fileHash
    ensures FromDict(Dict(d)) == Some(WithoutRuntime(s).(fileHash := OptStrOf(fileHash)))
  {
    FromDictOfEntries(d);
    StepsRoundTrip(s.steps);
    FolderIdRoundTrip(s.folderId);
    ResultRoundTrip(s.result);
    ErrorRoundTrip(s.error);
  }

  /** `from_dict` on a dictionary, field by field. */
  lemma FromDictOfEntries(d: seq<(string, Value)>)
    ensures var e := StepEntries(Lookup(d, "steps"));
      FromDict(Dict(d)) ==
        if e.None? then None
        else Some(PipelineState(StrOr(Lookup(d, "job_id"), ""), StrOr(Lookup(d, "original_filename"), ""),
                                StrOr(Lookup(d, "status"), PENDING), DecodeSteps(e.value, []),
                                ResultOf(Lookup(d, "result")), OptStrOf(Lookup(d, "error")), false,
                                OptStrOf(Lookup(d, "file_hash")), FolderIdOf(Lookup(d, "folder_id"))))
  {
  }

  lemma StepsRoundTrip(steps: seq<(string, StepState)>)
    requires DistinctKeys(steps)
    ensures var e := StepEntries(Some(Dict(EncodeSteps(steps))));
      e.Some? && DecodeSteps(e.value, []) == ClearStarts(steps)
  {
    DecodeEncodeSteps(steps);
    StepEntriesOfDict(EncodeSteps(steps));
  }

  /** A stored dictionary of steps, empty or not, reads back as its entries. */
  lemma StepEntriesOfDict(e: seq<(string, Value)>)
    ensures StepEntries(Some(Dict(e))) == Some(e)
  {
    assert Truthy(Dict(e)) <==> e != [];
  }

  lemma FolderIdRoundTrip(o: Option<int>)
    ensures FolderIdOf(Some(OptIntValue(o))) == o
  {
  }

  lemma ResultRoundTrip(r: seq<(string, Value)>)
    ensures ResultOf(Some(Dict(r))) == r
  {
  }

  lemma ErrorRoundTrip(o: Option<string>)
    ensures OptStrOf(Some(OptStrValue(o))) == o
  {
  }

  /** The fields of `to_dict`, each found under its own key. */
  lemma ToDictLookups(s: PipelineState)
    ensures Lookup(ToDictEntries(s), "job_id") == Some(Str(s.jobId))
    ensures Lookup(ToDictEntries(s), "original_filename") == Some(Str(s.originalFilename))
    ensures Lookup(ToDictEntries(s), "status") == Some(Str(s.status))
    ensures Lookup(ToDictEntries(s), "steps") == Some(Dict(EncodeSteps(s.steps)))
    ensures Lookup(ToDictEntries(s), "result") == Some(Dict(s.result))
    ensures Lookup(ToDictEntries(s), "error") == Some(OptStrValue(s.error))
    ensures Lookup(ToDictEntries(s), "folder_id") == Some(OptIntValue(s.folderId))
    ensures !HasKey(ToDictEntries(s), "file_hash")
  {
    var d := ToDictEntries(s);
    LookupAt(d, "job_id", 0);
    LookupAt(d, "original_filename", 1);
    LookupAt(d, "status", 2);
    LookupAt(d, "steps", 3);
    LookupAt(d, "result", 4);
    LookupAt(d, "error", 5);
    LookupAt(d, "folder_id", 6);
  }

  /** A persisted record reads back as itself, except for the step start times and the cancel flag. */
  lemma PersistRoundTrip(s: PipelineState)
    requires DistinctKeys(s.steps)
    ensures FromDict(ToPersistDict(s)) == Some(WithoutRuntime(s))
  {
    PersistLookups(s);
    FromDictFields(ToPersistDict(s).entries, s, Some(OptStrValue(s.fileHash)));
  }

  /** The fields of `to_persist_dict`, each found under its own key. */
  lemma PersistLookups(s: PipelineState)
    ensures var d := ToPersistDict(s).entries;
      && Lookup(d, "job_id") == Some(Str(s.jobId))
      && Lookup(d, "original_filename") == Some(Str(s.originalFilename))
      && Lookup(d, "status") == Some(Str(s.status))
      && Lookup(d, "steps") == Some(Dict(EncodeSteps(s.steps)))
      && Lookup(d, "result") == Some(Dict(s.result))
      && Lookup(d, "error") == Some(OptStrValue(s.error))
      && Lookup(d, "folder_id") == Some(OptIntValue(s.folderId))
      && Lookup(d, "file_hash") == Some(OptStrValue(s.fileHash))
  {
    var d, v := ToDictEntries(s), OptStrValue(s.fileHash);
    assert ToPersistDict(s).entries == Assign(d, "file_hash", v);
    ToDictLookups(s);
    AssignLookup(d, "file_hash", v, "job_id");
    AssignLookup(d, "file_hash", v, "original_filename");
    AssignLookup(d, "file_hash", v, "status");
    AssignLookup(d, "file_hash", v, "steps");
    AssignLookup(d, "file_hash", v, "result");
    AssignLookup(d, "file_hash", v, "error");
    AssignLookup(d, "file_hash", v, "folder_id");
    AssignLookup(d, "file_hash", v, "file_hash");
  }

  /** The UI dictionary reads back like the persisted one, but without the file hash. */
  lemma UiDictRoundTrip(s: PipelineState)
    requires DistinctKeys(s.steps)
    ensures FromDict(ToDict(s)) == Some(WithoutRuntime(s).(fileHash := None))
  {
    ToDictLookups(s);
    LookupHasKey(ToDictEntries(s), "file_hash");
    FromDictFields(ToDictEntries(s), s, None);
  }

  // ---------------------------------------------------------------------------
  // Persistence guard

  /** `_save_job_state` writes a record only once it is completed, failed or cancelled. */
  predicate ShouldPersist(s: PipelineState) {
    IsTerminal(s.status)
  }
}
