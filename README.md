# Audio-Processor job queue and pipeline, modelled in Dafny

Audio-Processor is a web service. Users upload meeting recordings (`.mp3`, `.wav` or `.mp4`, at most 100 MiB).
Each upload goes into a first-in-first-out queue. One background worker takes the queued files one at a time and runs
three stages on each:
- **preprocess**: convert to WAV;
- **transcribe**: Whisper speech recognition;
- **analyze**: a language model extracts the main topic, the subtopics and a markdown table of "truth statements".

Each job has a record with three step states. A step state holds a status, a message, a progress percentage and an ETA.
A finished record (completed, failed or cancelled) is written to disk as JSON and read back on start-up. An index of
the file hashes of completed jobs drives two advisory warnings on upload: "duplicate in queue" and "already processed".

This project models that core and proves properties of it:

- `JobStore` (`job_store.dfy`) models the runner's shared state as a class `Store`. Its fields are:
  - the queue;
  - the job records;
  - the processed-hash set and the job-to-hash index;
  - the pause flag and the current job;
  - the job files on disk.

  Most methods are one block that the source runs under its lock:
  - enqueueing, withdrawing a pending item, cancelling, deleting, pausing and resuming;
  - loading the job files;
  - the worker's claim (`BeginJob`), which joins the claim block, the unlocked creation of the record and the locked
    block that publishes it into one step.

  `EndJob` is not such a block. It is the worker's `run_pipeline` call, which runs outside the lock, followed by the
  locked finalize block. The only call that can change its outcome while it runs is `remove_job` on the running
  job, so whether that happened is an input of `EndJob` (`removedDuringRun`). A cancel request during the run is
  part of the run's input (the checkpoint at which the flag is seen). The other calls leave the job's record and
  index entry alone, so they commute with the run.

  The invariant `Valid()` says:
  - queue ids are unique;
  - only the claimed item is running, and it is tagged with the current job;
  - only the current job's record may have status running;
  - the hash index agrees with the records.
- `JobState` (`job_state.dfy`) covers the record types. It models `to_dict`, `to_persist_dict` and `from_dict` over a
  model of JSON values (`Values`), and proves the persistence round trip.
- `PipelineRun` (`pipeline_run.dfy`) covers `run_pipeline`:
  - the step helpers and the progress callbacks with their ETA guard;
  - the six cancellation checkpoints;
  - the three ways a run ends.

  The stage executors are inputs. Each is given as its progress reports and whether it returns or raises.
  Cancellation is given as the first checkpoint at which the cancel flag is seen.
- `StepsText`, `Segments`, `TruthTables` and `Analysis` cover the text helpers of `steps.py`:
  - transcript chunking by token budget;
  - subtopic deduplication;
  - truth-table row parsing and merging;
  - merging Whisper segments up to a minimum word count;
  - subtopic-response parsing;
  - the empty-transcript branch of the analysis.

  The loops of the source are methods proved against specification functions.
- `Api` (`api.dfy`), `Contracts` (`contracts.dfy`) and `Storage` (`storage.dfy`) cover the validators and parsers:
  - the file checks and content types;
  - folder-id parsing;
  - the warning-then-enqueue logic of the two upload endpoints;
  - the pipeline boundary contracts;
  - `gs://` references and the temporary-file guard.
- `Text`, `Paths`, `Values` and `Wrappers` model the Python built-ins the core relies on:
  - `str.strip`, `split`, `splitlines`, `lower`, `replace`, `int`, `str`;
  - `Path.name` and `Path.suffix`;
  - dictionaries as ordered entry lists.

Identifiers that the source draws from `uuid4` are parameters, required to be fresh.

## Model

| member | source | states |
|---|---|---|
| JobStore.Store.constructor | app/pipeline/runner.py:119-133 | The start-up state is an empty queue, no records, an empty hash index, not paused and no current job, with the job files an earlier run left; the invariant holds |
| JobStore.Store.GetJob | app/pipeline/runner.py:191-192 | Finds a record exactly when the id is stored, and returns that record |
| JobStore.Store.IsDuplicateInQueue | app/pipeline/runner.py:195-205 | True exactly when the current job's record carries the hash, or some queue item carries it, pending or running |
| JobStore.Store.IsAlreadyProcessed | app/pipeline/runner.py:208-211 | True exactly when some indexed job has the hash; such a job is still stored and completed with that hash |
| JobStore.Store.AddToQueue | app/pipeline/runner.py:243-258 | Appends exactly one pending, untagged item with the given fresh queue id at the tail and returns that id; nothing else changes and the invariant holds |
| JobStore.Store.RemoveFromQueue | app/pipeline/runner.py:261-268 | Removes the first item with that queue id that is still pending, and answers True, exactly when there is one; otherwise nothing changes. Afterwards no pending item has the id, so a second call answers False |
| JobStore.Store.CancelJob | app/pipeline/runner.py:295-306 | Answers True exactly for a stored job whose status is running, and then sets only its cancel flag; otherwise nothing changes |
| JobStore.Store.RemoveJob | app/pipeline/runner.py:271-292 | Answers True exactly for a stored job. It then deletes the record and the job file, and updates the hash index by `Forget`, which keeps a hash still carried by another job (see Findings); the invariant holds |
| JobStore.Store.Pause | app/pipeline/runner.py:309-312 | Sets the pause flag and changes nothing else |
| JobStore.Store.Resume | app/pipeline/runner.py:315-318 | Clears the pause flag and changes nothing else |
| JobStore.Store.SaveJobState | app/pipeline/runner.py:136-145 | Writes the persist dictionary to the file named after the job id, and only for a completed, failed or cancelled record. When every file decoded to a finished record named after it, every file still does |
| JobStore.Store.LoadPersistedJobs | app/pipeline/runner.py:159-188 | Runs once, on any files. The records are those of the decoded files in listing order (a later file of the same job id wins), the index holds their completed hashes, and the processed set holds every such hash. The invariant holds again when the decoded records have distinct ids and none is running. For files the store wrote, the stored ids are exactly the file names and each record is its file decoded |
| JobStore.Store.ApplyLoaded | app/pipeline/runner.py:182-187 | Stores each loaded record under its id, indexes the completed ones with a hash, and adds each such hash to the processed set, for any loaded records |
| JobStore.LoadedHashesIndexed | app/pipeline/runner.py:183-187 | With distinct ids, the processed hashes after loading are exactly the indexed ones |
| JobStore.LoadedValid | app/pipeline/runner.py:183-187 | Loaded records with distinct ids, none running, give well-formed records, no running record, and an index that agrees with the records |
| JobStore.ParsedSteps | app/pipeline/runner.py:171-176 | Every decoded record has unique step keys |
| JobStore.WrittenFilesLoadOk | app/pipeline/runner.py:171-176 | The files the store writes decode to records with distinct ids, none of them running |
| JobStore.DuplicateIdKeepsStaleHash | app/pipeline/runner.py:183-187 | Two files of one job id, the earlier completed and the later failed: the failed record is stored but the completed one's hash stays indexed under the id, so the index disagrees with the records |
| JobStore.ParseFiles | app/pipeline/runner.py:170-178 | The loaded records are the ones the listed files decode to, in listing order; files that do not decode are skipped |
| JobStore.LoadedContents | app/pipeline/runner.py:159-188 | Loading files the store wrote gives records with distinct ids, none running, and a well-formed index. The stored ids are exactly the file names, each record is the file decoded, and exactly the completed records with a hash are indexed |
| JobStore.ParsedAll | app/pipeline/runner.py:171-176 | Every file the store wrote decodes, to a record whose job id is the file's name |
| JobStore.JobsFromKeys | app/pipeline/runner.py:183-184 | The stored ids are exactly the ids of the loaded records, and every indexed id is stored |
| JobStore.LoadedIndex | app/pipeline/runner.py:183-187 | With distinct ids, the index holds exactly the completed records carrying a hash, each under that hash, and every loaded record is stored unchanged |
| JobStore.Store.BeginJob | app/pipeline/runner.py:334-370 | Claims an item exactly when the queue is not paused and some item is pending. The claim takes the first pending item, marks it running and tags it with the new job id, then publishes a fresh running record with the three pending stages and makes it the current job. Otherwise there is no current job and nothing else changes |
| JobStore.ClaimTakesHead | app/pipeline/runner.py:334-348 | While no job is current, the item claimed is the head of the queue: the queue is served first in, first out |
| JobStore.ClaimKeepsInvariants | app/pipeline/runner.py:338-370 | Claiming a pending item while no job is current keeps the queue, record and index invariants, and the new record is the only running one |
| JobStore.ClaimedRecord | app/pipeline/runner.py:356-367 | The published record has the job id, the item's file name, hash (`file_hash or None`) and folder, status running, the three standard steps, no result and no error |
| JobStore.Store.EndJob | app/pipeline/runner.py:372-388 | Stores the run's finished record under the job id, or none when the job was deleted during the run, and clears the current job. Removes the queue entry tagged with the job id. Only when the run updated the published record and the job was not deleted is its hash indexed (if it completed with one) and its file written; a job deleted during the run keeps no file. The invariant holds and no record is running |
| JobStore.Store.StoreRun | app/pipeline/runner.py:408-421 | The run's finished record replaces the stored one; the record and index invariants hold and no record is running. The worker keeps its own view: the run's record when one was stored at the start, otherwise the record it published |
| JobStore.RunOn | app/pipeline/runner.py:372-375 | The record a run leaves is the pipeline's result on the claimed item, starting from the stored record if any; it keeps the job id and is finished |
| JobStore.Store.DeleteUnindexed | app/pipeline/runner.py:271-292 | `remove_job` on a job that is not indexed deletes the record and its file and leaves the index and the processed set unchanged |
| JobStore.DeleteKeepsIndex | app/pipeline/runner.py:274-280 | Deleting a job that is not indexed keeps the record and index invariants |
| JobStore.EndKeepsIndex | app/pipeline/runner.py:408-421 | The current job is not indexed, and storing a finished record under its id keeps the record and index invariants and leaves no record running |
| JobStore.Store.Finalize | app/pipeline/runner.py:376-388 | Clears the current job and removes exactly the first entry tagged with the job id. When the worker's record is still the stored one, indexes its hash only if it completed with a non-empty hash and saves it only if it is terminal; otherwise index, processed set and files are unchanged (corrected behaviour, see Findings). The invariant holds |
| JobStore.FinalizeKeepsIndex | app/pipeline/runner.py:379-381 | Indexing the worker's record only while it is still stored keeps the index invariant |
| JobStore.FinalizeAsWrittenRevivesRemovedJob | app/pipeline/runner.py:376-383 | As written, a completed job deleted during its run gets indexed though it is gone, and its file is written again so that it decodes at the next start-up |
| JobStore.RunLeavesLive | app/pipeline/runner.py:376-383 | The finalize block finds the worker's record still stored exactly when the run updated the published record and the job was not deleted; the record is then the run's, and saving writes it |
| JobStore.Store.RecordHash | app/pipeline/runner.py:379-381 | Adds the record's hash to the processed set and the index only when the record completed with a non-empty hash |
| JobStore.Store.DropJobEntry | app/pipeline/runner.py:384-388 | Removes the queue entry tagged with the job id, leaving a queue with no claimed item |
| JobStore.EndJobIndexes | app/pipeline/runner.py:379-381 | The run's record contributes a hash exactly when every stage returned with no cancel seen and the record carries a non-empty hash; a non-empty item hash is the one the record carries |
| JobStore.RunKeepsRecordShape | app/pipeline/runner.py:372-388 | The record a run leaves keeps its job id, has the three stages under distinct keys, and is completed, failed or cancelled |
| JobStore.FinishKeepsQueueOk | app/pipeline/runner.py:385-388 | Removing the first entry tagged with the current job leaves no claimed entry and keeps the queue ids unique |
| JobStore.RemovePendingKeepsQueueOk | app/pipeline/runner.py:264-267 | Removing a pending item keeps the queue invariant |
| JobStore.RemoveKeepsInvariants | app/pipeline/runner.py:274-280 | Deleting a record and forgetting its hash the corrected way keeps the record, current-job, running-record and hash-index invariants |
| JobStore.NoOtherWithId | app/pipeline/runner.py:264-267 | With unique queue ids, once the matching item is removed no pending item with that id remains |
| JobStore.FirstPendingIndex | app/pipeline/runner.py:338-339 | The scan finds the first pending item, or reaches the end exactly when none is pending |
| JobStore.FirstTaggedIndex | app/pipeline/runner.py:385-386 | The scan finds the first entry tagged with the job id |
| JobStore.Forget | app/pipeline/runner.py:278-280 | Drops the job from the index; when the processed set equals the indexed hashes before, it still does afterwards (corrected behaviour) |
| JobStore.ForgetKeepsSharedHash | app/pipeline/runner.py:278-280 | After the corrected update, a deleted job's hash stays processed exactly when another job still carries it |
| JobStore.ForgetAgrees | app/pipeline/runner.py:278-280 | When no other job shares the hash, the update as written and the corrected one agree |
| JobStore.ForgetAsWrittenLosesSharedHash | app/pipeline/runner.py:278-280 | As written, deleting one of two completed jobs of the same file drops the hash while the other still carries it |
| JobStore.HashesWith | app/pipeline/runner.py:380-381 | Indexing a new job adds exactly its hash to the indexed hashes |
| JobStore.FirstIndex | app/pipeline/runner.py:264-265 | Finds the first element satisfying the test, or none when no element does |
| JobStore.RemoveAt | app/pipeline/runner.py:266 | `list.pop(i)`: one element shorter, with the elements before `i` kept and those after it shifted down |
| JobState.StepStatusFrom | app/pipeline/runner.py:86-90 | A status text decodes to its status; a missing or unknown one decodes to pending |
| JobState.InitialSteps | app/pipeline/runner.py:362-366 | The three stages preprocess, transcribe and analyze, in order, under distinct keys, each pending with no start time |
| JobState.StandardStepsDistinct | app/pipeline/runner.py:362-366 | The three standard stage keys are distinct |
| JobState.ToPersistDict | app/pipeline/runner.py:73-77 | The persist dictionary is the UI dictionary followed by `file_hash` |
| JobState.FolderIdOf | app/pipeline/runner.py:100-105 | A missing or null folder id decodes to None, an integer to itself, and a string to what `int` makes of it |
| JobState.FromDict | app/pipeline/runner.py:79-115 | Decodes exactly the dictionaries whose `steps` can be iterated; the result is not cancelled and has distinct step keys |
| JobState.DecodeSteps | app/pipeline/runner.py:84-99 | The step loop keeps step keys distinct and adds at most one step per entry |
| JobState.StepRoundTrip | app/pipeline/runner.py:58-65 | A step written by `to_dict` decodes back to itself, without its start time |
| JobState.DecodeEncodeSteps | app/pipeline/runner.py:57-67 | Steps with distinct keys are written and decoded back to themselves, without start times |
| JobState.FromDictFields | app/pipeline/runner.py:106-115 | A dictionary holding the fields `to_dict` writes decodes to the record, without runtime fields |
| JobState.PersistRoundTrip | app/pipeline/runner.py:52-115 | `from_dict(to_persist_dict(s))` is `s` except that start times come back None and the cancel flag comes back False |
| JobState.PersistLookups | app/pipeline/runner.py:52-77 | Every field of the persist dictionary is found under its own key |
| JobState.UiDictRoundTrip | app/pipeline/runner.py:52-71 | The UI dictionary reads back like the persisted one, but without the file hash |
| PipelineRun.Clamp | app/pipeline/runner.py:437 | The progress is kept within [0, 100] and is unchanged inside that range |
| PipelineRun.Eta | app/pipeline/runner.py:469-471 | An ETA is passed on exactly when the progress is strictly between 0 and 100 |
| PipelineRun.MarkRunning | app/pipeline/runner.py:433-440 | `set_step_running`: running, with the message, clamped progress and ETA given; the start time is set only when unset |
| PipelineRun.ApplyReports | app/pipeline/runner.py:467-472 | After the callbacks the step is running with the last report's message, keeps its start time, and stays well formed |
| PipelineRun.Reported | app/pipeline/runner.py:465-472 | A started stage is running and well formed, timed from its first start, at "Starting..." and 0% until its first report |
| PipelineRun.EndingOf | app/pipeline/runner.py:458-529 | A run finishes exactly when every stage returns and no checkpoint sees the flag. A failure is the first raising stage before any checkpoint saw the flag. A cancellation is at the first checkpoint that sees it, with every stage before it returned |
| PipelineRun.StageEntries | app/pipeline/runner.py:479-527 | The result entries each stage writes have distinct keys |
| PipelineRun.Prepared | app/pipeline/runner.py:405-427 | The record the run starts from is running and not cancelled, with the three stages. A new record starts from the initial steps. A given hash or folder overrides the stored one |
| PipelineRun.FailFirstRunning | app/pipeline/runner.py:551-554 | Marks the first running step failed and no other; with no running step, the steps are unchanged |
| PipelineRun.WithStep | app/pipeline/runner.py:434 | Replacing a stage's step keeps the three standard stages |
| PipelineRun.RunStage | app/pipeline/runner.py:465-478 | A stage starts and reports. On a raise the job fails with that error and that stage alone is marked failed; otherwise the record is the reported one |
| PipelineRun.StageBlock | app/pipeline/runner.py:459-527 | One stage with its two checkpoints either stops the run, with the record the run specification gives and the error exactly when the run failed, or completes the stage |
| PipelineRun.RunPipeline | app/pipeline/runner.py:397-556 | The record a run leaves is the one the run specification gives for its stages and checkpoints; an error is raised exactly when a stage raised |
| PipelineRun.StageStarts | app/pipeline/runner.py:465-510 | A stage starts only after the stages before it have completed, with no step running before it |
| PipelineRun.StageCompletes | app/pipeline/runner.py:478-523 | Marking a returned stage done gives the steps of the next stage boundary |
| PipelineRun.StageFails | app/pipeline/runner.py:548-555 | A stage raising ends the run as the run specification says |
| PipelineRun.CheckpointCancels | app/pipeline/runner.py:459-522 | A checkpoint that sees the flag ends the run cancelled with the record as it stands |
| PipelineRun.NothingProgressed | app/pipeline/runner.py:458-462 | Before the first stage, the record is the prepared one |
| PipelineRun.RunFinishes | app/pipeline/runner.py:523-529 | A run whose stages all return and whose checkpoints never see the flag completes |
| PipelineRun.RunEndsTerminal | app/pipeline/runner.py:458-556 | Every run ends completed, failed or cancelled |
| PipelineRun.RunKeepsIdentity | app/pipeline/runner.py:458-556 | A run changes neither the record's job id and file name nor its hash and folder |
| PipelineRun.RunResultSteps | app/pipeline/runner.py:458-556 | The steps a run leaves, stage by stage, as a function of how the run ended |
| PipelineRun.CancelledOutcome | app/pipeline/runner.py:459-522 | Seeing the flag: the job is cancelled with "Cancelled by user", the run marks no step failed, and stages not yet started keep their steps |
| PipelineRun.FailedOutcome | app/pipeline/runner.py:548-555 | A raise: the job fails with the stage's error and that stage alone is marked failed. Earlier stages are completed and later ones untouched |
| PipelineRun.CompletedExactly | app/pipeline/runner.py:529 | A job is completed exactly when every stage returned and no checkpoint saw the flag |
| PipelineRun.CompletedOutcome | app/pipeline/runner.py:478-529 | A completed job has its three steps done at 100% with no ETA. Its result holds all seven entries: the audio flag, the transcription, its timestamps, the main topic, the subtopics, the truth table and the file name |
| PipelineRun.CompletedResult | app/pipeline/runner.py:479-527 | Each of the seven result entries of a completed run (`audio_ready`, `transcription`, `timestamps`, `main_topic`, `subtopics`, `truth_statements_md`, `original_filename`) is found under its own key with the value its stage wrote |
| PipelineRun.CompletedEarlyEntries | app/pipeline/runner.py:479-501 | The first two stages' entries (the audio flag, the transcription and its timestamps) survive the third stage |
| PipelineRun.CompletedFindings | app/pipeline/runner.py:524-527 | The third stage writes the main topic, the subtopics as a list of strings, the truth table and the file name |
| PipelineRun.RunKeepsStepsWellFormed | app/pipeline/runner.py:433-456 | A run keeps every step's percentage in [0, 100], with an ETA only strictly inside |
| StepsText.ChunkTranscript | app/pipeline/steps.py:47-84 | Blank text gives no chunk, and text with no sentence gives the stripped text. Otherwise the chunks are, in order, the sentences grouped within the token budget, and each over-long sentence is cut into slices of exactly `max_tokens` tokens, the last holding the rest. The grouping is greedy: no group could have taken the next group's first sentence within the budget |
| StepsText.ChunkSentences | app/pipeline/steps.py:58-84 | The chunks of a non-empty list of sentences render a plan whose sources are exactly those sentences, in order; every step fits the budget or is a cut at multiples of `max_tokens`, and the grouping is greedy |
| StepsText.CloseLast | app/pipeline/steps.py:81-83 | After the loop, a non-empty open group becomes the last chunk; the grouping stays within budget and greedy, and at least one chunk results |
| StepsText.PackedAppend | app/pipeline/steps.py:76-80 | Appending a group that the previous group could not have absorbed, or a cut, keeps the grouping greedy |
| StepsText.ChunkStep | app/pipeline/steps.py:62-80 | One sentence: the sentence order is kept, every group stays within the token budget, and a group is closed only when the next sentence would not fit |
| StepsText.AddSentence | app/pipeline/steps.py:75-80 | A sentence within the budget closes the open group exactly when it would not fit in it, then joins the open group; the grouping stays within budget and greedy |
| StepsText.CutStep | app/pipeline/steps.py:64-74 | An over-long sentence closes the open group and is cut into token slices, each of exactly `max_tokens` tokens but the last |
| StepsText.CloseGroup | app/pipeline/steps.py:66-83 | The open group becomes one chunk, within the budget, with its sentences in order |
| StepsText.CutSentence | app/pipeline/steps.py:70-73 | The slices put together are the sentence's tokens. Every slice but the last holds exactly `max_tokens` tokens and the last between one and `max_tokens`, so the cuts fall at multiples of `max_tokens`; there are ceil(n / max_tokens) of them |
| StepsText.SliceCount | app/pipeline/steps.py:71-72 | Full slices followed by one last non-empty slice number ceil(n / m) |
| StepsText.CutProgressStep | app/pipeline/steps.py:71-72 | Each turn of the slicing loop keeps the slices so far equal to the tokens before the cursor |
| StepsText.NonBlankStripped | app/pipeline/steps.py:54 | The kept sentences are stripped and not empty |
| StepsText.MergeDedupSubtopics | app/pipeline/steps.py:87-97 | The result is the stripped first item of each normalised form over all lists, in order |
| StepsText.MergeSubtopicList | app/pipeline/steps.py:92-96 | One list's turn of the loop keeps the result on track for the specification |
| StepsText.MergedSubtopics | app/pipeline/steps.py:87-97 | Kept items are stripped, have normalised forms longer than 2 and pairwise distinct, and come from the input; every input form longer than 2 is represented |
| StepsText.MergedSubtopicsOrder | app/pipeline/steps.py:87-97 | The merged list is, in input order, the stripped first item of each normalised form longer than 2: the positions it takes its items from strictly increase, and a position is taken exactly when no earlier item has the same normalised form |
| StepsText.KeepFirstOrder | app/pipeline/steps.py:91-96 | The kept items sit at strictly increasing input positions, and a position is kept exactly when its key is longer than 2, not seen before and not carried by an earlier item |
| StepsText.KeepFirst | app/pipeline/steps.py:94 | Kept items have keys longer than 2 that were not seen before |
| StepsText.KeepFirstDistinct | app/pipeline/steps.py:94-95 | No two kept items share a key |
| StepsText.KeepFirstFromInput | app/pipeline/steps.py:96 | Every kept item is an input item |
| StepsText.KeepFirstComplete | app/pipeline/steps.py:94-96 | Every input item with a long enough key is represented unless its key was seen before |
| StepsText.DedupStep | app/pipeline/steps.py:93-96 | One turn of the dedup loop |
| Segments.ReadRawSegments | app/pipeline/steps.py:228-234 | The first loop raises exactly when some chunk's timestamp is a list or tuple that `float()` cannot read in its first two entries, at the first such chunk. Otherwise it keeps, in order, the segments of the chunks whose stripped text is not blank |
| Segments.ReadSegments | app/pipeline/steps.py:228-234 | Reading fails exactly when some chunk's timestamp is unreadable, and then at an unreadable chunk |
| Segments.FirstUnreadable | app/pipeline/steps.py:229-231 | The position found holds an unreadable timestamp and no earlier one does; none is found exactly when every timestamp is readable |
| Segments.FirstUnreadableAt | app/pipeline/steps.py:229-231 | An unreadable chunk after readable ones is the first unreadable chunk, and reading fails there |
| Segments.AllReadable | app/pipeline/steps.py:228-234 | With every timestamp readable, reading gives the segments of the non-blank chunks |
| Segments.ReadContinues | app/pipeline/steps.py:229-234 | After a readable prefix, one more readable chunk appends its segment, if any |
| Segments.ReadStopsAt | app/pipeline/steps.py:229-231 | After a readable prefix, an unreadable chunk makes reading fail at its position |
| Segments.ReadNext | app/pipeline/steps.py:229-234 | One turn of the loop raises exactly for an unreadable timestamp, and otherwise extends the segments read so far |
| Segments.ReadChunk | app/pipeline/steps.py:230-234 | A chunk with an unreadable timestamp raises, whether or not its text is blank. Otherwise its times (zeros unless a pair is given) and stripped text, kept only when not blank |
| Segments.RawSegmentsMember | app/pipeline/steps.py:228-234 | A segment is kept exactly when some chunk yields it |
| Segments.RawSegmentsTrimmed | app/pipeline/steps.py:232-234 | Every kept text is stripped and non-blank |
| Segments.GroupSegments | app/pipeline/steps.py:239-267 | The merge loop groups the segments greedily, in order and without loss, and merges each group |
| Segments.GreedyUnique | app/pipeline/steps.py:245-261 | The greedy grouping of a run of segments is unique |
| Segments.GreedyGrow | app/pipeline/steps.py:248-251 | Adding a segment to a group that stays under the minimum keeps the grouping greedy |
| Segments.GreedyClose | app/pipeline/steps.py:252-261 | Closing the group when the segment would reach the minimum keeps the grouping greedy |
| Segments.MergeWords | app/pipeline/steps.py:256 | A merged group's text has as many words as its parts together |
| Segments.MergeSegmentsByMinWords | app/pipeline/steps.py:226-277 | Raises exactly when some chunk's timestamp is unreadable, at the first such chunk. Otherwise: empty output exactly when no chunk has text. The output keeps the segments in order and is no longer than they are. After the fix-up there is one segment, or the last has at least `min_words` words |
| Segments.MergeRead | app/pipeline/steps.py:236-277 | Once every chunk was read, the segments are grouped greedily and fixed up without loss or reordering, and the last merged segment has at least `min_words` words unless there is only one |
| Segments.FixedGroupsFacts | app/pipeline/steps.py:268-276 | The fix-up keeps the segments and their order, and leaves one group or a last group with at least `min_words` words |
| Segments.MergeFixed | app/pipeline/steps.py:269-276 | The fixed-up merged list is the merge of the fixed-up grouping |
| Segments.MergeConcat | app/pipeline/steps.py:272-276 | Merging two adjacent groups joins their merged segments with ", " |
| Analysis.ParseSubtopicsResponse | app/pipeline/steps.py:398-401 | Empty exactly for an empty response; otherwise a list of proper items, or the response itself |
| Analysis.SubtopicItemsShape | app/pipeline/steps.py:400 | Every item is stripped, longer than 2 characters, and holds neither "-" nor a line break |
| Analysis.ParseSubtopicsJoin | app/pipeline/steps.py:398-401 | Proper items written one per line are parsed back as themselves |
| Analysis.AnalyzeLlm | app/pipeline/steps.py:408-413 | An empty transcription gives "(No transcription)", no subtopics and "(No transcription.)"; otherwise the model's findings |
| TruthTables.ParseTruthTableRows | app/pipeline/steps.py:100-114 | The rows are the stripped lines, in order, that start with a pipe, are not separator lines, and name no header column |
| TruthTables.TableRowsOf | app/pipeline/steps.py:103-113 | The loop keeps exactly the table rows, in order |
| TruthTables.TableRowsMember | app/pipeline/steps.py:103-113 | A row is kept exactly when it is the stripped form of some line and a table row |
| TruthTables.ParsedRowsValid | app/pipeline/steps.py:100-114 | Every returned row is stripped, unbroken and a table row |
| TruthTables.MergeDedupTruthMd | app/pipeline/steps.py:117-139 | Returns the merged table of the specification |
| TruthTables.MergeTableRows | app/pipeline/steps.py:126-135 | One table's rows keep the merge on track for the specification |
| TruthTables.KeptRowsFacts | app/pipeline/steps.py:124-135 | Kept rows have distinct non-empty statements and come from the input. Every input statement is represented, and every row without a statement is kept |
| TruthTables.DedupRowsDeduplicated | app/pipeline/steps.py:129-135 | The kept rows are deduplicated |
| TruthTables.DedupRowsFromInput | app/pipeline/steps.py:133-135 | Every kept row is an input row |
| TruthTables.DedupRowsComplete | app/pipeline/steps.py:129-135 | A row with a new statement is represented, and a non-blank row without a statement is kept |
| TruthTables.DedupRowsIdempotent | app/pipeline/steps.py:129-135 | Deduplicating deduplicated rows changes nothing |
| TruthTables.TruthMarkdownShape | app/pipeline/steps.py:137-139 | The merged table starts with the header and separator lines, and holds the placeholder exactly when no row was kept |
| TruthTables.HeaderNotRow | app/pipeline/steps.py:111-119 | The written header is never read back as a row |
| TruthTables.SeparatorNotRow | app/pipeline/steps.py:108-120 | The written separator matches the separator pattern, so it is never read back as a row |
| TruthTables.ParseTruthMarkdown | app/pipeline/steps.py:100-139 | Reading a merged table back yields exactly its rows |
| TruthTables.MergedTruthIdempotent | app/pipeline/steps.py:117-139 | Merging a merged table again gives it back unchanged |
| Api.ValidateFile | app/main.py:88-93 | Passes exactly for an allowed lower-cased suffix and a size of at most the limit; the extension is checked first |
| Api.ValidateFileByName | app/main.py:88-93 | A name with an allowed extension in any letter case passes exactly when at most 100 MiB, and is otherwise too large |
| Api.DotFileRejected | app/main.py:89-91 | A file called just `.mp3` has no suffix and is refused for its format |
| Api.ContentTypeForExtension | app/main.py:128-137 | A media type exactly for the three allowed extensions in any case; anything else, None included, gives `application/octet-stream` |
| Api.AcceptedFileHasMediaType | app/main.py:149-153 | A file that passes the check gets a media type |
| Api.UploadContractStricter | app/pipeline/contracts.py:17-23 | The boundary contract is stricter than the HTTP check; the size-0 check of `enqueue_from_gcs` would fail it |
| Api.ParseFolderIds | app/main.py:432-445 | None for missing or blank input. Otherwise the integers among the stripped comma-separated pieces, in order, and it is Some exactly when there is at least one |
| Api.PieceValue | app/main.py:438-444 | A piece contributes exactly one value, the integer of its stripped text, when that text is non-empty and an integer; otherwise nothing |
| Api.ParsePiecesAt | app/main.py:438-444 | The parsed list is the values of the pieces before a piece, then that piece's value, then the values of the pieces after it |
| Api.IntegerPieceGivesIds | app/main.py:432-445 | A non-blank input with one integer piece gives a list, and that integer sits after the values of the earlier pieces |
| Api.JunkPieceSkipped | app/main.py:439-444 | A blank or non-integer piece contributes nothing |
| Api.ParseFolderIdsRoundTrip | app/main.py:432-445 | Folder ids written comma-separated parse back to the same ids in the same order |
| Api.ParseFolderField | app/main.py:188-193 | None when missing, blank or not an integer, and the integer otherwise |
| Api.ParseFolderFieldOfInt | app/main.py:218-223 | `str(i)` in the form field gives `i` |
| Api.FolderFieldAgreesWithList | app/main.py:188-193 | A form field naming one folder and a query string naming the same one agree |
| Api.SearchRequest | app/main.py:455-458 | A blank query searches nothing. Otherwise the stripped query and the parsed folder ids are searched |
| Api.Warnings | app/main.py:195-206 | None exactly when neither check fires. Otherwise the duplicate warning, when present, comes first, then the processed warning |
| Api.EnqueueChecked | app/main.py:196-201 | The warnings are computed before enqueueing, and the item is enqueued whatever they say; only the queue changes |
| Api.EnqueueFromGcs | app/main.py:177-207 | Refused exactly when no bucket is configured or the extension is bad. Otherwise the item is enqueued with its `gs://` URI and parsed folder, and the warnings are computed only when a hash was sent |
| Api.LStripSlashes | app/main.py:194 | `lstrip('/')`: a suffix of the input that does not start with a slash |
| Api.EnqueuedUriResolves | app/main.py:194 | The stored URI resolves, when the job runs, to a download of that object from that bucket |
| Api.GcsUriIsStripped | app/main.py:194 | The stored URI is unchanged by stripping |
| Api.FileRejectionAgrees | app/main.py:237-258 | Upload refuses the files `_validate_file` refuses and no others; only for a file both too large and of a bad format do the reasons differ |
| Api.Upload | app/main.py:210-271 | No files, or the first refused file, gives the error. The files before it are enqueued in order. When none is refused, each answer carries the warnings owed at the time, counting earlier files of the same request as duplicates |
| Api.EnqueueUntilRejected | app/main.py:225-270 | The loop enqueues the files up to the first refused one, with their answers |
| Api.UploadOne | app/main.py:259-270 | One accepted file is enqueued and its answer is the one owed |
| Api.FirstRejectedAt | app/main.py:225-258 | The first refused file is the first one that fails its check |
| Api.QueuedHashes | app/main.py:260-264 | After enqueueing, a hash is in the queue exactly when it was there before or an enqueued file has it |
| Contracts.ValidateUploadInput | app/pipeline/contracts.py:17-25 | Passes exactly for an allowed suffix, a size in [1, max] and an existing file; the extension is checked first, then the size |
| Contracts.ValidatePreprocessOutput | app/pipeline/contracts.py:28-35 | A missing path is refused first; an existing one passes |
| Contracts.SegmentError | app/pipeline/contracts.py:44-53 | A segment passes exactly when it is a dictionary with numeric `start` and `end` and a `text`, with the start not after the end |
| Contracts.FirstSegmentError | app/pipeline/contracts.py:44-53 | The first failing segment is the one reported; none fails exactly when all pass |
| Contracts.ValidateTranscribeOutput | app/pipeline/contracts.py:38-53 | Passes exactly for a string transcription and a list of well-formed segments, the empty list included; the type checks come first |
| Contracts.TranscribedSegmentsPass | app/pipeline/contracts.py:38-53 | The segments the transcribe step produces pass exactly when none ends before it starts |
| Contracts.ValidateLlmInput | app/pipeline/contracts.py:56-61 | Passes exactly for a string of at most `max_chars` characters |
| Contracts.StatParts | app/pipeline/contracts.py:67-70 | `job_id=…`, then `stage=…`, then the keyword parts |
| Contracts.KeywordPartsAppend | app/pipeline/contracts.py:68-70 | The keyword parts of two runs of arguments are those of each, in order |
| Contracts.NoneArgumentDropped | app/pipeline/contracts.py:69 | An argument whose value is None leaves no part |
| Contracts.KeywordPartsAllGiven | app/pipeline/contracts.py:68-70 | When every value is given, part `k` is argument `k` written as `key=value` |
| Storage.IsGcsRef | app/storage.py:13-17 | True exactly for a string that begins with `gs://`; a Path never is one |
| Storage.GetUploadPath | app/storage.py:20-42 | A Path comes back unchanged and a non-`gs://` string as its stripped self. A `gs://` URI becomes a download of its bucket and object, with the object's suffix or `.bin`, or is invalid when no slash follows the bucket |
| Storage.SplitGcsUri | app/storage.py:36-39 | Corrected split: defined exactly when the URI starts with `gs://` and a slash follows; the bucket and object name rebuild the URI |
| Storage.SplitGcsUriOfParts | app/storage.py:36-39 | Building a URI from a bucket without slashes and any object name, then splitting it, gives both back |
| Storage.SplitAsWrittenAgrees | app/storage.py:36-39 | The split as written agrees with the corrected one while the rest of the URI holds no `gs://` |
| Storage.SplitAsWrittenAltersObjectName | app/storage.py:36-39 | As written, `gs://b/gs://c` is split into object `c` rather than `gs://c` |
| Storage.UploadTarget | app/storage.py:64-70 | A stripped URI that does not start with `gs://` is refused; a target's bucket and object rebuild the URI |
| Storage.TempSuffix | app/storage.py:42 | The object name's own suffix, or `.bin` when it has none |
| Storage.ShouldDelete | app/storage.py:77-83 | Deletes only after a `gs://` run, only a file, and only one whose name contains `gcs_upload_` |
| Storage.TempFileIsDeleted | app/storage.py:82-83 | The temporary file a download is written to is the one deleted afterwards |
| Storage.UploadedFileIsKept | app/storage.py:82-83 | A file whose name lacks the prefix is never deleted |
| Text.StripFacts | app/pipeline/steps.py:54 | `strip()` removes exactly the leading and trailing whitespace, and gives "" exactly for blank text |
| Text.NormalizeStrip | app/pipeline/steps.py:93-96 | Stripping an item does not change its normalised form |
| Text.WordCountJoinComma | app/pipeline/steps.py:247-256 | Joining stripped non-blank texts with ", " neither merges nor splits words |
| Text.JoinSplitOn | app/main.py:437 | Joining the pieces of `split(",")` with the separator gives the text back |
| Text.SplitOnJoin | app/main.py:437 | Splitting a join gives the parts back when no part contains the separator |
| Text.SplitLinesJoin | app/pipeline/steps.py:103 | Lines without breaks, joined by "\n", split back into themselves |
| Text.ParseIntToString | app/main.py:442 | `int(str(i)) == i` |
| Text.ReplaceChar | app/pipeline/steps.py:400 | Replacing one character by another works character by character |
| Paths.Suffix | app/main.py:89 | `Path.suffix`: empty, or a dot and at least one character with no dot or slash, ending the file name |
| Paths.SuffixOfName | app/main.py:89 | The suffix of `stem + ext` is `ext` |
| Paths.DotFileHasNoSuffix | app/main.py:89 | A hidden file such as `.mp3` has no suffix |
| Paths.NameOfChild | app/storage.py:82 | The name of `dir/n` is `n` |
| Values.AssignLookup | app/pipeline/runner.py:479 | After `d[key] = v`, the key reads `v` and every other key reads as before |
| Values.AssignAllLookup | app/pipeline/runner.py:501-527 | After a run of assignments, each assigned key reads as assigned and every other key as before |
| Values.LookupHasKey | app/pipeline/runner.py:82 | `d.get(key)` finds a value exactly when `key in d` |

## Left out

- Threads and the lock (runner.py:120, 321-394) are not modelled. So are the worker's endless loop with its one-second sleep and the thread start. Each locked block is one atomic method. `BeginJob` merges the claim block, the unlocked creation of the record and the second locked block that publishes it (runner.py:334-370), so a call interleaved between them is not modelled. `Api.Upload` is likewise one step, while the source makes one `add_to_queue` call per file with awaits in between, so other requests interleaved between its files are not modelled. The unlocked run between the worker's claim and its finalize block is part of `EndJob`, whose input says whether `remove_job` deleted the job during the run.
- I/O is not modelled: JSON text encoding, file writes and deletes, the SQL metadata store, the RAG indexing calls and the GCS client. Job files are a map from id to a JSON value. Writes of job files are taken to succeed: the source ignores a failed `write_text` (runner.py:142-145), which would leave the file as it was. The other external calls are taken to fail silently and leave the state unchanged.
- The ML stages (`preprocess`, `transcribe`, `_generate`, model loading) are not modelled. A stage is given by its progress reports and its exit.
- The regular expressions are not modelled: the sentence split (steps.py:53) is given as a list of pieces, and the separator pattern is written out as a predicate. Tokenizer encode and decode are function parameters.
- Clock readings are not modelled. The ETA value, the chunk progress percentages of `analyze_llm`, and the progress of the language-model sub-steps are left out. The ETA guard and the clamp are modelled over reals.
- `get_queue_state` is not modelled: it is a read-only snapshot. Neither is `_file_hash`, since SHA-256 hashes are given, nor `api_config`, nor the upload-url endpoint and its signed URLs.
- Text.ParseInt: models `int()` of a string as an optional sign and ASCII digits, surrounded by whitespace. `_` separators and non-ASCII digits are not accepted.
- Api.ParseFolderField: inherits the `int()` subset of `Text.ParseInt`.
- Api.ParseFolderIds: inherits the `int()` subset of `Text.ParseInt`.
- Text.Lower: maps ASCII letters only. There is no Unicode case mapping.
- Api.Upload: reading the upload stream is not modelled. Each file's size, SHA-256 hash and saved path are given. The source checks the size while streaming (app/main.py:242-245), before the extension, and `Api.FileRejectionAgrees` states the resulting difference from `_validate_file`. A file whose upload raises an I/O error is not modelled either.
- `str()` of keyword-argument values in `log_intermediate_stats` is not modelled. Values arrive already rendered.
- The message texts of exceptions are not modelled, only which error is raised.
- `Path` handling covers POSIX `name` and `suffix` only.
- NaN and infinite floats are not modelled.
- `Contracts.ValidatePreprocessOutput`: the `isinstance(audio_path, Path)` TypeError is not modelled, because paths are strings here.
- `JobStore.Store.RemoveJob` uses the corrected hash update (see Findings), not the one at runner.py:278-280. The update as written is `JobStore.ForgetAsWritten`.
- `JobStore.Store.Finalize` indexes and saves only a record that is still stored (see Findings), not unconditionally as at runner.py:379-383. The update as written is `JobStore.IndexAfter`, `JobStore.ProcessedAfter` and `JobStore.SavedAfter` applied to the worker's record.
- `Storage.GetUploadPath` and `Storage.UploadTarget` use the corrected prefix split (see Findings), not `replace`. The split as written is `Storage.SplitGcsUriAsWritten`.
- `JobStore.Store.CancelJob` models the fallback lookup by current job id (runner.py:300-302) as written. The fallback repeats `_jobs.get` with the same id, so it never finds a record the first lookup missed, and the contract's answer depends only on the stored record.
- JobState.FromDict: a present `status`, `job_id`, `original_filename` or `file_hash` that is not a string is read as the field's default, and a truthy `result` that is not a dictionary is read as `{}`. The same holds for `error`, and in each step for a `name`, `message` or `detail` that is not a string (read as the default), a `progress` that is not a number (read as 0) and an `eta_seconds` or `start_time` that is not a number (read as None). The source keeps the raw value (runner.py:106-115); for example `{"steps": {}, "status": null}` gives status `None` there and `"pending"` here. Records are typed, so a record with a non-string status is not representable.
- JobStore.Store.LoadPersistedJobs: promises the invariant only when the decoded records have distinct job ids and none is running, as for files the store wrote. For other files it states the exact records, index and processed set, and `JobStore.DuplicateIdKeepsStaleHash` shows how two files of one job id leave an index entry that disagrees with the stored record.
- Segments: a chunk's timestamp is given already classified as missing, a readable pair, not a list or tuple, or unreadable. The parsing that `float()` does on strings is not modelled.
- `PipelineRun.RunPipeline` takes the cancel flag as the first of six checkpoints at which it is seen. A flag set during a stage and seen only inside the executor makes the executor return early; the next checkpoint then sees it.
- After a stage returns, the code checks the cancel flag before it marks the stage completed (runner.py:474-478, 496-500, 519-523). A cancellation seen there leaves that step running in a cancelled job; `PipelineRun.CancelledOutcome` states this.

## Findings

| source | as written | input that shows it | evidently intended | confidence | as-written member | corrected member |
|---|---|---|---|---|---|---|
| app/pipeline/runner.py:278-280 | `remove_job` discards the job's hash from the processed set, even when another stored completed job has the same hash | Two completed jobs `a` and `b` of the same file (hash `h`); `remove_job("a")` leaves `b` stored, but `is_already_processed("h")` becomes false | The hash stays processed while any remaining job carries it | not executed | JobStore.ForgetAsWrittenLosesSharedHash | JobStore.ForgetKeepsSharedHash |
| app/pipeline/runner.py:376-383 | The finalize block indexes and saves the worker's own record without checking that the job is still stored | A job that completes with hash `h` while `remove_job` deletes it during `run_pipeline`: `_job_to_hash` gets an entry for a job no longer in `_jobs`, `h` counts as processed, and the job file is written again, so the deleted job is loaded back at the next start-up | A job deleted during its run is neither indexed nor saved | not executed | JobStore.FinalizeAsWrittenRevivesRemovedJob | JobStore.FinalizeKeepsIndex |
| app/storage.py:36-39 | The bucket/object split deletes every `gs://` in the URI, not just the scheme prefix | `gs://b/gs://c` is split into bucket `b` and object `c`, although the object is `gs://c` | Only the leading `gs://` is removed | not executed | Storage.SplitAsWrittenAltersObjectName | Storage.SplitGcsUriOfParts |
