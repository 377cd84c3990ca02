/**
  * The checks at the pipeline's stage boundaries (the upload going in, the WAV file
  * preprocessing produces, the transcript and its timestamped segments, the text handed
  * to the language model) and the key=value parts of the statistics log line.
  * A check that raises is a `Some(violation)`; one that passes is `None`.
  */
module Contracts {
  import opened Wrappers
  import opened Text
  import opened Values
  import opened Paths
  import Segments

  /** What a boundary check raises, with the exception class in its comment. */
  datatype Violation =
    | InvalidExtension(suffix: string)              // ValueError
    | SizeOutOfRange(size: int)                     // ValueError
    | PathMissing                                   // FileNotFoundError
    | AudioPathNone                                 // ValueError
    | TranscriptionNotStr                           // TypeError
    | TimestampsNotList                             // TypeError
    | SegmentNotDict(index: nat)                    // TypeError
    | SegmentMissingKey(key: string)                // ValueError
    | BoundsNotNumeric                              // TypeError
    | StartAfterEnd(index: nat)                     // ValueError
    | TranscriptNotStr                              // TypeError
    | TranscriptTooLong(length: nat, maxChars: int) // ValueError

  // ---------------------------------------------------------------- upload and preprocess

  /** `validate_upload_input`: the lowercased suffix must be allowed (checked first), the
      size must lie in `[1, maxSizeBytes]`, and the file must exist (`onDisk` stands for
      the file-system query). */
  function ValidateUploadInput(filePath: string, sizeBytes: int, allowed: set<string>,
                               maxSizeBytes: int, onDisk: bool): (r: Option<Violation>)
    ensures r.None? <==> Lower(Suffix(filePath)) in allowed && 1 <= sizeBytes <= maxSizeBytes && onDisk
    ensures Lower(Suffix(filePath)) !in allowed ==> r == Some(InvalidExtension(Lower(Suffix(filePath))))
    ensures Lower(Suffix(filePath)) in allowed && !(1 <= sizeBytes <= maxSizeBytes) ==>
      r == Some(SizeOutOfRange(sizeBytes))
  {
    var suffix := Lower(Suffix(filePath));
    if suffix !in allowed then Some(InvalidExtension(suffix))
    else if sizeBytes < 1 || sizeBytes > maxSizeBytes then Some(SizeOutOfRange(sizeBytes))
    else if !onDisk then Some(PathMissing)
    else None
  }

  /** `validate_preprocess_output`: a missing path is rejected before anything else is
      looked at, and an existing one passes. */
  function ValidatePreprocessOutput(audioPath: Option<string>, onDisk: bool): (r: Option<Violation>)
    ensures audioPath.None? ==> r == Some(AudioPathNone)
    ensures r.None? <==> audioPath.Some? && onDisk
  {
    if audioPath.None? then Some(AudioPathNone)
    else if !onDisk then Some(PathMissing)
    else None
  }

  // ---------------------------------------------------------------- transcribe output

  /** `isinstance(v, (int, float))`; a bool is an int in Python. */
  predicate IsNumber(v: Value) {
    v.Int? || v.Float? || v.Bool?
  }

  /** The number a numeric value stands for, for comparison. */
  function NumberOf(v: Value): real
    requires IsNumber(v)
  {
    match v
    case Int(i) => i as real
    case Float(x) => x
    case Bool(b) => if b then 1.0 else 0.0
  }

  /** A well-formed segment: a dictionary with `start`, `end` and `text`, whose start and
      end are numbers with the start not after the end. */
  predicate SegmentOk(seg: Value) {
    && seg.Dict?
    && HasKey(seg.entries, "start") && HasKey(seg.entries, "end") && HasKey(seg.entries, "text")
    && var start := Lookup(seg.entries, "start");
       var end := Lookup(seg.entries, "end");
       && start.Some? && end.Some?
       && IsNumber(start.value) && IsNumber(end.value)
       && NumberOf(start.value) <= NumberOf(end.value)
  }

  /** The check of segment `i`, in the order the source makes it. */
  function SegmentError(seg: Value, i: nat): (r: Option<Violation>)
    ensures r.None? <==> SegmentOk(seg)
  {
    if !seg.Dict? then Some(SegmentNotDict(i))
    else
      LookupHasKey(seg.entries, "start");
      LookupHasKey(seg.entries, "end");
      LookupHasKey(seg.entries, "text");
      var start := Lookup(seg.entries, "start");
      var end := Lookup(seg.entries, "end");
      if start.None? then Some(SegmentMissingKey("start"))
      else if end.None? then Some(SegmentMissingKey("end"))
      else if Lookup(seg.entries, "text").None? then Some(SegmentMissingKey("text"))
      else if !(IsNumber(start.value) && IsNumber(end.value)) then Some(BoundsNotNumeric)
      else if NumberOf(start.value) > NumberOf(end.value) then Some(StartAfterEnd(i))
      else None
  }

  /** The first segment at or after `i` that fails its check, reported as its check does. */
  function FirstSegmentError(segs: seq<Value>, i: nat): (r: Option<Violation>)
    requires i <= |segs|
    ensures r.None? <==> forall k :: i <= k < |segs| ==> SegmentOk(segs[k])
    ensures r.Some? ==> exists j :: (i <= j < |segs| && r == SegmentError(segs[j], j) &&
      forall k :: i <= k < j ==> SegmentOk(segs[k]))
    decreases |segs| - i
  {
    if i == |segs| then None
    else
      var e := SegmentError(segs[i], i);
      if e.Some? then e else FirstSegmentError(segs, i + 1)
  }

  /** `validate_transcribe_output`: the transcription must be a string, the timestamps a
      list, and every segment well formed; the first failure is the one reported. */
  function ValidateTranscribeOutput(transcription: Value, timestamps: Value): (r: Option<Violation>)
    ensures r.None? <==>
      transcription.Str? && timestamps.List? &&
      forall k :: 0 <= k < |timestamps.items| ==> SegmentOk(timestamps.items[k])
    ensures !transcription.Str? ==> r == Some(TranscriptionNotStr)
    ensures transcription.Str? && !timestamps.List? ==> r == Some(TimestampsNotList)
  {
    if !transcription.Str? then Some(TranscriptionNotStr)
    else if !timestamps.List? then Some(TimestampsNotList)
    else FirstSegmentError(timestamps.items, 0)
  }

  /** The dictionary the transcribe step stores for a segment. */
  function SegmentValue(seg: Segments.Segment): Value {
    Dict([("start", Float(seg.start)), ("end", Float(seg.end)), ("text", Str(seg.text))])
  }

  function SegmentValues(segs: seq<Segments.Segment>): (r: seq<Value>)
    ensures |r| == |segs| && forall k :: 0 <= k < |segs| ==> r[k] == SegmentValue(segs[k])
  {
    seq(|segs|, k requires 0 <= k < |segs| => SegmentValue(segs[k]))
  }

  /** The segments the transcribe step produces pass the check exactly when none of them
      ends before it starts. */
  lemma TranscribedSegmentsPass(text: string, segs: seq<Segments.Segment>)
    ensures ValidateTranscribeOutput(Str(text), List(SegmentValues(segs))).None? <==>
      forall k :: 0 <= k < |segs| ==> segs[k].start <= segs[k].end
  {
    var values := SegmentValues(segs);
    forall k | 0 <= k < |segs|
      ensures SegmentOk(values[k]) <==> segs[k].start <= segs[k].end
    {
      var entries := values[k].entries;
      LookupAt(entries, "start", 0);
      LookupAt(entries, "end", 1);
      assert entries[2].0 == "text";
      assert entries[0].0 == "start" && entries[1].0 == "end";
    }
  }

  // ---------------------------------------------------------------- language-model input

  /** `validate_llm_input`: a string of at most `maxChars` characters. */
  function ValidateLlmInput(transcript: Value, maxChars: int): (r: Option<Violation>)
    ensures r.None? <==> transcript.Str? && |transcript.s| <= maxChars
    ensures transcript.Str? && |transcript.s| > maxChars ==>
      r == Some(TranscriptTooLong(|transcript.s|, maxChars))
  {
    if !transcript.Str? then Some(TranscriptNotStr)
    else if |transcript.s| > maxChars then Some(TranscriptTooLong(|transcript.s|, maxChars))
    else None
  }

  // ---------------------------------------------------------------- statistics line

  /** The `k=v` parts for the keyword arguments whose value is not None, in argument
      order; a value is given already rendered by `str`. */
  function KeywordParts(kwargs: seq<(string, Option<string>)>): (r: seq<string>)
    ensures |r| <= |kwargs|
  {
    if kwargs == [] then []
    else
      var rest := KeywordParts(kwargs[1..]);
      match kwargs[0].1
      case Some(v) => [kwargs[0].0 + "=" + v] + rest
      case None => rest
  }

  /** The parts of the statistics line: `job_id=…`, `stage=…`, then the keyword parts. */
  function StatParts(stage: string, jobId: string, kwargs: seq<(string, Option<string>)>): (r: seq<string>)
    ensures |r| >= 2 && r[0] == "job_id=" + jobId && r[1] == "stage=" + stage
    ensures r[2..] == KeywordParts(kwargs)
  {
    ["job_id=" + jobId, "stage=" + stage] + KeywordParts(kwargs)
  }

  /** The message `log_intermediate_stats` logs. */
  function StatsLine(stage: string, jobId: string, kwargs: seq<(string, Option<string>)>): string {
    "pipeline_stats " + Join(StatParts(stage, jobId, kwargs), " ")
  }

  /** The keyword parts of two runs of arguments are those of each, in order. */
  lemma {:induction false} KeywordPartsAppend(a: seq<(string, Option<string>)>, b: seq<(string, Option<string>)>)
    ensures KeywordParts(a + b) == KeywordParts(a) + KeywordParts(b)
  {
    if a != [] {
      assert (a + b)[1..] == a[1..] + b;
      KeywordPartsAppend(a[1..], b);
    } else {
      assert a + b == b;
    }
  }

  /** An argument whose value is None leaves no part. */
  lemma NoneArgumentDropped(a: seq<(string, Option<string>)>, key: string, b: seq<(string, Option<string>)>)
    ensures KeywordParts(a + [(key, None)] + b) == KeywordParts(a) + KeywordParts(b)
  {
    KeywordPartsAppend(a + [(key, None)], b);
    KeywordPartsAppend(a, [(key, None)]);
  }

  /** When every value is given, part `k` is argument `k` written as `key=value`. */
  lemma {:induction false} KeywordPartsAllGiven(kwargs: seq<(string, Option<string>)>)
    requires forall k :: 0 <= k < |kwargs| ==> kwargs[k].1.Some?
    ensures |KeywordParts(kwargs)| == |kwargs|
    ensures forall k :: 0 <= k < |kwargs| ==> KeywordParts(kwargs)[k] == kwargs[k].0 + "=" + kwargs[k].1.value
  {
    if kwargs != [] {
      KeywordPartsAllGiven(kwargs[1..]);
    }
  }
}
