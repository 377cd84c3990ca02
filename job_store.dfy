/**
  * The runner's shared state: the FIFO queue of uploads, the job records, the index of
  * processed file hashes, the pause flag and the current job, and the job records
  * persisted on disk. Each method but `EndJob` is one block the source runs under its lock.
  *
  * Identifiers (uuid4 in the source) are parameters, required fresh. The worker loop is
  * split into `LoadPersistedJobs` (its first action), `BeginJob` (claim the next item and publish
  * its record) and `EndJob` (run the pipeline and finalize), so that the API calls can be
  * interleaved between them. The run itself holds the lock only briefly; the one call that
  * can change its outcome while it runs, `remove_job`, is an input of `EndJob`.
  */
module JobStore {
  import opened Wrappers
  import opened Values
  import opened JobState
  import PipelineRun

  // ===========================================================================
  // Queue items

  /** A queue item's "status": it waits, or the worker has claimed it. */
  datatype ItemStatus = ItemPending | ItemRunning

  /** A queue entry. `jobId` is the tag the worker adds when it claims the item. */
  datatype QueueItem = QueueItem(
    queueId: string,
    uploadPath: string,
    originalFilename: string,
    fileHash: string,
    folderId: Option<int>,
    status: ItemStatus,
    jobId: Option<string>)

  /** The index of the first element satisfying `p`, if any. */
  function FirstIndex<T>(s: seq<T>, p: T -> bool): (r: Option<nat>)
    ensures r.Some? ==> r.value < |s| && p(s[r.value]) && forall j :: 0 <= j < r.value ==> !p(s[j])
    ensures r.None? ==> forall j :: 0 <= j < |s| ==> !p(s[j])
  {
    if s == [] then None
    else if p(s[0]) then Some(0)
    else match FirstIndex(s[1..], p)
      case Some(i) => Some(i + 1)
      case None => None
  }

  /** The first element satisfying `p` is the one no earlier element precedes. */
  lemma FirstIndexAt<T>(s: seq<T>, p: T -> bool, i: nat)
    requires i <= |s| && forall j :: 0 <= j < i ==> !p(s[j])
    requires i < |s| ==> p(s[i])
    ensures FirstIndex(s, p) == if i < |s| then Some(i) else None
  {
    match FirstIndex(s, p)
    case Some(k) =>
      assert p(s[k]);
      assert k >= i;
    case None =>
  }

  predicate IsPending(item: QueueItem) {
    item.status == ItemPending
  }

  /** `remove_from_queue`'s test: this queue id, and still pending. */
  function PendingWithId(queueId: string): QueueItem -> bool {
    (item: QueueItem) => item.queueId == queueId && item.status == ItemPending
  }

  function HasJobTag(jobId: string): QueueItem -> bool {
    (item: QueueItem) => item.jobId == Some(jobId)
  }

  function WithHash(fileHash: string): QueueItem -> bool {
    (item: QueueItem) => item.fileHash == fileHash
  }

  function RemoveAt<T>(s: seq<T>, i: nat): (r: seq<T>)
    requires i < |s|
    ensures |r| == |s| - 1
    ensures forall j :: 0 <= j < i ==> r[j] == s[j]
    ensures forall j :: i <= j < |r| ==> r[j] == s[j + 1]
  {
    s[..i] + s[i + 1..]
  }

  /** The claimed item: running, tagged with the job id. */
  function Claimed(item: QueueItem, jobId: string): QueueItem {
    item.(status := ItemRunning, jobId := Some(jobId))
  }

  /** `file_hash or None`. */
  function HashOption(fileHash: string): Option<string> {
    if fileHash == [] then None else Some(fileHash)
  }

  /** The record the worker publishes for a claimed item. */
  function ClaimedRecord(item: QueueItem, jobId: string): (r: PipelineState)
    ensures r.jobId == jobId && r.status == RUNNING && HasStandardSteps(r.steps) && DistinctKeys(r.steps)
    ensures r.originalFilename == item.originalFilename && r.fileHash == HashOption(item.fileHash)
    ensures r.folderId == item.folderId && !r.cancelled && r.result == [] && r.error.None?
  {
    NewJob(jobId, item.originalFilename, HashOption(item.fileHash), item.folderId).(status := RUNNING)
  }

  /** The record `run_pipeline` leaves for a claimed item, starting from the stored
      record if there is one. */
  function RunOf(existing: Option<PipelineState>, jobId: string, item: QueueItem,
                 runs: seq<PipelineRun.StageRun>, out: PipelineRun.Outputs, cancelFrom: nat): PipelineState
    requires |runs| == 3 && (existing.Some? ==> HasStandardSteps(existing.value.steps))
  {
    PipelineRun.RunResult(
      PipelineRun.Prepared(existing, jobId, item.originalFilename, HashOption(item.fileHash), item.folderId),
      runs, out, item.originalFilename, cancelFrom)
  }

  /** The worker's own record after the run: the one the run updated when it was still
      stored at the start of the run, otherwise the record it published, untouched. */
  function WorkerView(existing: Option<PipelineState>, s: PipelineState, item: QueueItem, jobId: string): PipelineState {
    if existing.Some? then s else ClaimedRecord(item, jobId)
  }

  /** The records after the run: the run's record under the job id, then deleted when
      `remove_job` ran during the run. */
  function AfterRun(jobs: map<string, PipelineState>, jobId: string, s: PipelineState, removed: bool)
    : map<string, PipelineState>
  {
    if removed then jobs[jobId := s] - {jobId} else jobs[jobId := s]
  }

  /** The worker's record is still the stored one. */
  predicate Live(jobs: map<string, PipelineState>, state: PipelineState) {
    state.jobId in jobs && jobs[state.jobId] == state
  }

  /** The index after finalizing a record. */
  function IndexAfter(jobToHash: map<string, string>, state: PipelineState): map<string, string> {
    if CompletedHash(state).Some? then jobToHash[state.jobId := CompletedHash(state).value] else jobToHash
  }

  /** The processed set after finalizing a record. */
  function ProcessedAfter(processed: set<string>, state: PipelineState): set<string> {
    if CompletedHash(state).Some? then processed + {CompletedHash(state).value} else processed
  }

  /** The job files after saving a record. */
  function SavedAfter(persisted: map<string, Value>, state: PipelineState): map<string, Value> {
    if IsTerminal(state.status) then persisted[state.jobId := ToPersistDict(state)] else persisted
  }

  /** The queue without the first entry tagged with the job id. */
  function WithoutJob(queue: seq<QueueItem>, jobId: string): seq<QueueItem> {
    match FirstIndex(queue, HasJobTag(jobId))
    case Some(i) => RemoveAt(queue, i)
    case None => queue
  }

  // ===========================================================================
  // The hash index

  /** The hashes recorded for completed jobs. */
  function HashesOf(jobToHash: map<string, string>): set<string> {
    set j | j in jobToHash :: jobToHash[j]
  }

  /** Indexing a new job adds exactly its hash. */
  lemma HashesWith(jobToHash: map<string, string>, jobId: string, h: string)
    requires jobId !in jobToHash
    ensures HashesOf(jobToHash[jobId := h]) == HashesOf(jobToHash) + {h}
  {
    var m := jobToHash[jobId := h];
    forall x | x in HashesOf(m) ensures x in HashesOf(jobToHash) + {h} {
      var j :| j in m && m[j] == x;
      if j != jobId {
        assert j in jobToHash;
      }
    }
    forall x | x in HashesOf(jobToHash) ensures x in HashesOf(m) {
      var j :| j in jobToHash && jobToHash[j] == x;
      assert j in m && m[j] == x;
    }
    assert m[jobId] == h;
  }

  /** The hash a completed job contributes to the index: its non-empty file hash. */
  function CompletedHash(s: PipelineState): Option<string> {
    if s.status == COMPLETED && s.fileHash.Some? && s.fileHash.value != [] then s.fileHash else None
  }

  /** `remove_job`'s update of the index as written: the job's hash leaves the processed
      set, whether or not another job still carries it. */
  function ForgetAsWritten(processed: set<string>, jobToHash: map<string, string>, jobId: string)
    : (set<string>, map<string, string>)
  {
    var h := if jobId in jobToHash then jobToHash[jobId] else "";
    (if h != [] then processed - {h} else processed, jobToHash - {jobId})
  }

  /** The intended update: the hash leaves the processed set only when no remaining
      job carries it. */
  function Forget(processed: set<string>, jobToHash: map<string, string>, jobId: string)
    : (r: (set<string>, map<string, string>))
    ensures r.1 == jobToHash - {jobId}
    ensures processed == HashesOf(jobToHash) && (jobId in jobToHash ==> jobToHash[jobId] != []) ==>
      r.0 == HashesOf(r.1)
  {
    var rest := jobToHash - {jobId};
    var h := if jobId in jobToHash then jobToHash[jobId] else "";
    HashesWithout(jobToHash, jobId);
    (if h != [] && h !in HashesOf(rest) then processed - {h} else processed, rest)
  }

  /** Dropping one entry of the index drops at most that entry's hash. */
  lemma HashesWithout(jobToHash: map<string, string>, jobId: string)
    ensures jobId !in jobToHash ==> HashesOf(jobToHash - {jobId}) == HashesOf(jobToHash)
    ensures jobId in jobToHash ==> HashesOf(jobToHash) == HashesOf(jobToHash - {jobId}) + {jobToHash[jobId]}
  {
    var rest := jobToHash - {jobId};
    forall x | x in HashesOf(jobToHash) && !(jobId in jobToHash && x == jobToHash[jobId])
      ensures x in HashesOf(rest)
    {
      var j :| j in jobToHash && jobToHash[j] == x;
      assert j in rest;
    }
    forall x | x in HashesOf(rest) ensures x in HashesOf(jobToHash) {
      var j :| j in rest && rest[j] == x;
      assert j in jobToHash;
    }
    if jobId in jobToHash {
      assert jobToHash[jobId] in HashesOf(jobToHash);
    }
  }

  /** After the intended update, a deleted job's hash stays processed exactly when
      another job still carries it. */
  lemma ForgetKeepsSharedHash(processed: set<string>, jobToHash: map<string, string>, jobId: string)
    requires processed == HashesOf(jobToHash) && jobId in jobToHash && jobToHash[jobId] != []
    ensures jobToHash[jobId] in Forget(processed, jobToHash, jobId).0 <==>
      exists j :: j in jobToHash && j != jobId && jobToHash[j] == jobToHash[jobId]
  {
    var h := jobToHash[jobId];
    var rest := jobToHash - {jobId};
    if h in Forget(processed, jobToHash, jobId).0 {
      var j :| j in rest && rest[j] == h;
      assert j in jobToHash && j != jobId;
    }
    if exists j :: j in jobToHash && j != jobId && jobToHash[j] == h {
      var j :| j in jobToHash && j != jobId && jobToHash[j] == h;
      assert j in rest;
    }
  }

  /** Where no other job shares the hash, the written update and the intended one agree. */
  lemma ForgetAgrees(processed: set<string>, jobToHash: map<string, string>, jobId: string)
    requires jobId in jobToHash
    requires forall j :: j in jobToHash && j != jobId ==> jobToHash[j] != jobToHash[jobId]
    ensures ForgetAsWritten(processed, jobToHash, jobId) == Forget(processed, jobToHash, jobId)
  {
    var rest := jobToHash - {jobId};
    assert jobToHash[jobId] !in HashesOf(rest);
  }

  /** Two completed jobs of the same file; deleting one, as written, drops the hash while
      the other job still carries it, so the same upload is no longer flagged. */
  lemma ForgetAsWrittenLosesSharedHash()
    ensures var jobToHash := map["a" := "h", "b" := "h"];
      var after := ForgetAsWritten({"h"}, jobToHash, "a");
      after.1 == map["b" := "h"] && "h" in HashesOf(after.1) && "h" !in after.0
  {
    var after := ForgetAsWritten({"h"}, map["a" := "h", "b" := "h"], "a");
    assert after.1["b"] == "h";
  }

  // ===========================================================================
  // Invariants over values

  /** Queue ids are unique; exactly the claimed items carry a job id, at most one item is
      claimed, and a claimed item is the current job, which always has one. */
  predicate QueueOk(queue: seq<QueueItem>, current: Option<string>) {
    (forall i, j :: 0 <= i < j < |queue| ==> queue[i].queueId != queue[j].queueId) &&
    (forall i :: 0 <= i < |queue| ==> (queue[i].status == ItemRunning <==> queue[i].jobId.Some?)) &&
    (forall i :: 0 <= i < |queue| && queue[i].status == ItemRunning ==> current == queue[i].jobId) &&
    (forall i, j :: 0 <= i < j < |queue| ==> !(queue[i].status == ItemRunning && queue[j].status == ItemRunning)) &&
    (current.Some? ==> exists i :: 0 <= i < |queue| && queue[i].jobId == current)
  }

  /** Each record is stored under its own id and has step keys that are unique. */
  predicate JobsOk(jobs: map<string, PipelineState>) {
    forall k :: k in jobs ==> jobs[k].jobId == k && DistinctKeys(jobs[k].steps)
  }

  /** The current job's record, while present, is running with the three stages. */
  predicate CurrentOk(jobs: map<string, PipelineState>, current: Option<string>) {
    current.Some? && current.value in jobs ==>
      jobs[current.value].status == RUNNING && HasStandardSteps(jobs[current.value].steps)
  }

  /** Every indexed job is present and completed with that non-empty hash, and the
      processed set is exactly the set of indexed hashes. */
  predicate HashIndexOk(jobs: map<string, PipelineState>, jobToHash: map<string, string>, processed: set<string>) {
    (forall j :: j in jobToHash ==> j in jobs && CompletedHash(jobs[j]) == Some(jobToHash[j])) &&
    processed == HashesOf(jobToHash)
  }

  /** Only the current job's record may be running: the worker runs one job at a time. */
  predicate RunningIsCurrent(jobs: map<string, PipelineState>, current: Option<string>) {
    forall k :: k in jobs && jobs[k].status == RUNNING ==> current == Some(k)
  }

  /** The files are the ones the store writes: each reads back as a finished record stored
      under the file's name. */
  predicate PersistedOk(persisted: map<string, Value>) {
    forall k :: k in persisted ==>
      FromDict(persisted[k]).Some? && FromDict(persisted[k]).value.jobId == k && IsTerminal(FromDict(persisted[k]).value.status)
  }

  // ===========================================================================
  // The store

  class Store {
    var queue: seq<QueueItem>
    var jobs: map<string, PipelineState>
    var processedHashes: set<string>
    var jobToHash: map<string, string>
    var paused: bool
    var currentJobId: Option<string>
    var persistedLoaded: bool
    /** The job files on disk, by job id. */
    var persisted: map<string, Value>

    predicate Valid()
      reads this
    {
      QueueOk(queue, currentJobId) && JobsOk(jobs) && CurrentOk(jobs, currentJobId) &&
      RunningIsCurrent(jobs, currentJobId) && HashIndexOk(jobs, jobToHash, processedHashes) &&
      (!persistedLoaded ==> jobs == map[] && jobToHash == map[] && currentJobId.None?)
    }

    /** The job files on disk are the ones the store writes. The store does not rely on
        it: any file may be found on disk at start-up. */
    predicate DiskOk()
      reads this
    {
      PersistedOk(persisted)
    }

    /** Everything but the queue: what enqueueing leaves alone. */
    function AllButQueue(): (map<string, PipelineState>, set<string>, map<string, string>, bool,
                             Option<string>, bool, map<string, Value>)
      reads this
    {
      (jobs, processedHashes, jobToHash, paused, currentJobId, persistedLoaded, persisted)
    }

    /** The state at start-up, with the job files an earlier run left on disk. */
    constructor(disk: map<string, Value>)
      ensures Valid()
      ensures queue == [] && jobs == map[] && processedHashes == {} && jobToHash == map[]
      ensures !paused && currentJobId.None? && !persistedLoaded && persisted == disk
    {
      queue := [];
      jobs := map[];
      processedHashes := {};
      jobToHash := map[];
      paused := false;
      currentJobId := None;
      persistedLoaded := false;
      persisted := disk;
    }

    /** `get_job`. */
    function GetJob(jobId: string): (r: Option<PipelineState>)
      reads this
      ensures r.Some? <==> jobId in jobs
      ensures r.Some? ==> r.value == jobs[jobId]
    {
      if jobId in jobs then Some(jobs[jobId]) else None
    }

    /** `is_duplicate_in_queue`: the current job's record carries the hash, or some queue
        item does, whatever its status. */
    function IsDuplicateInQueue(fileHash: string): (r: bool)
      reads this
      ensures r <==>
        (currentJobId.Some? && currentJobId.value != [] && currentJobId.value in jobs &&
         jobs[currentJobId.value].fileHash == Some(fileHash)) ||
        (exists i :: 0 <= i < |queue| && queue[i].fileHash == fileHash)
    {
      var current :=
        currentJobId.Some? && currentJobId.value != [] && currentJobId.value in jobs &&
        jobs[currentJobId.value].fileHash == Some(fileHash);
      var found := FirstIndex(queue, WithHash(fileHash));
      assert found.Some? ==> queue[found.value].fileHash == fileHash;
      current || found.Some?
    }

    /** `is_already_processed`: some job still present completed with this hash. */
    function IsAlreadyProcessed(fileHash: string): (r: bool)
      reads this
      requires Valid()
      ensures r <==> exists j :: j in jobToHash && jobToHash[j] == fileHash
      ensures r ==> exists j :: j in jobs && CompletedHash(jobs[j]) == Some(fileHash)
    {
      fileHash in processedHashes
    }

    /** `add_to_queue`: one pending item at the tail; nothing else changes. */
    method AddToQueue(queueId: string, uploadPath: string, originalFilename: string,
                      fileHash: string, folderId: Option<int>) returns (id: string)
      requires Valid()
      requires forall i :: 0 <= i < |queue| ==> queue[i].queueId != queueId
      modifies this
      ensures Valid() && id == queueId
      ensures queue == old(queue) + [QueueItem(queueId, uploadPath, originalFilename, fileHash, folderId, ItemPending, None)]
      ensures jobs == old(jobs) && processedHashes == old(processedHashes) && jobToHash == old(jobToHash)
      ensures paused == old(paused) && currentJobId == old(currentJobId)
      ensures persistedLoaded == old(persistedLoaded) && persisted == old(persisted)
    {
      queue := queue + [QueueItem(queueId, uploadPath, originalFilename, fileHash, folderId, ItemPending, None)];
      id := queueId;
      assert currentJobId.Some? ==> exists i :: 0 <= i < |queue| && queue[i].jobId == currentJobId by {
        if currentJobId.Some? {
          var i :| 0 <= i < |old(queue)| && old(queue)[i].jobId == currentJobId;
          assert queue[i] == old(queue)[i];
        }
      }
    }

    /** `remove_from_queue`: the first pending item with this queue id is removed and the
        call answers True; when there is none, nothing changes and it answers False.
        Either way no pending item with this id is left, so a second call answers False. */
    method RemoveFromQueue(queueId: string) returns (removed: bool)
      requires Valid()
      modifies this
      ensures Valid()
      ensures removed <==> FirstIndex(old(queue), PendingWithId(queueId)).Some?
      ensures removed ==> queue == RemoveAt(old(queue), FirstIndex(old(queue), PendingWithId(queueId)).value)
      ensures !removed ==> queue == old(queue)
      ensures FirstIndex(queue, PendingWithId(queueId)).None?
      ensures jobs == old(jobs) && processedHashes == old(processedHashes) && jobToHash == old(jobToHash)
      ensures paused == old(paused) && currentJobId == old(currentJobId)
      ensures persistedLoaded == old(persistedLoaded) && persisted == old(persisted)
    {
      var i := 0;
      while i < |queue|
        invariant 0 <= i <= |queue| && queue == old(queue)
        invariant forall j :: 0 <= j < i ==> !PendingWithId(queueId)(queue[j])
      {
        if queue[i].queueId == queueId && queue[i].status == ItemPending {
          var q := queue;
          queue := RemoveAt(q, i);
          RemovePendingKeepsQueueOk(q, i, currentJobId);
          NoOtherWithId(q, i, queueId);
          return true;
        }
        i := i + 1;
      }
      return false;
    }

    /** `cancel_job`: only a present job that is running gets its cancel flag set. */
    method CancelJob(jobId: string) returns (ok: bool)
      requires Valid()
      modifies this
      ensures Valid()
      ensures ok <==> jobId in old(jobs) && old(jobs)[jobId].status == RUNNING
      ensures ok ==> jobs == old(jobs)[jobId := old(jobs)[jobId].(cancelled := true)]
      ensures !ok ==> jobs == old(jobs)
      ensures queue == old(queue) && processedHashes == old(processedHashes) && jobToHash == old(jobToHash)
      ensures paused == old(paused) && currentJobId == old(currentJobId)
      ensures persistedLoaded == old(persistedLoaded) && persisted == old(persisted)
    {
      var state := GetJob(jobId);
      if state.None? {
        if currentJobId.Some? && currentJobId.value != [] && currentJobId.value == jobId {
          state := GetJob(currentJobId.value);
        }
      }
      if state.None? || state.value.status != RUNNING {
        return false;
      }
      jobs := jobs[jobId := state.value.(cancelled := true)];
      ok := true;
    }

    /** `remove_job`: an unknown id answers False; otherwise the record, its index entry
        and its file are dropped, and its hash stays processed exactly when another job
        still carries it. */
    method RemoveJob(jobId: string) returns (ok: bool)
      requires Valid()
      modifies this
      ensures Valid()
      ensures ok <==> jobId in old(jobs)
      ensures ok ==> jobs == old(jobs) - {jobId} && persisted == old(persisted) - {jobId}
      ensures ok ==> (processedHashes, jobToHash) == Forget(old(processedHashes), old(jobToHash), jobId)
      ensures !ok ==> jobs == old(jobs) && persisted == old(persisted) &&
                      processedHashes == old(processedHashes) && jobToHash == old(jobToHash)
      ensures queue == old(queue) && paused == old(paused) && currentJobId == old(currentJobId)
      ensures persistedLoaded == old(persistedLoaded)
    {
      if jobId !in jobs {
        return false;
      }
      RemoveKeepsInvariants(jobs, jobToHash, processedHashes, currentJobId, jobId);
      jobs := jobs - {jobId};
      var r := Forget(processedHashes, jobToHash, jobId);
      processedHashes, jobToHash := r.0, r.1;
      persisted := persisted - {jobId};
      ok := true;
    }

    /** `pause_queue`. */
    method Pause()
      requires Valid()
      modifies this
      ensures Valid() && paused
      ensures queue == old(queue) && jobs == old(jobs) && processedHashes == old(processedHashes)
      ensures jobToHash == old(jobToHash) && currentJobId == old(currentJobId)
      ensures persistedLoaded == old(persistedLoaded) && persisted == old(persisted)
    {
      paused := true;
    }

    /** `resume_queue`. */
    method Resume()
      requires Valid()
      modifies this
      ensures Valid() && !paused
      ensures queue == old(queue) && jobs == old(jobs) && processedHashes == old(processedHashes)
      ensures jobToHash == old(jobToHash) && currentJobId == old(currentJobId)
      ensures persistedLoaded == old(persistedLoaded) && persisted == old(persisted)
    {
      paused := false;
    }

    /** `_save_job_state`: only a completed, failed or cancelled record is written, to the
        file named after its job id. */
    method SaveJobState(state: PipelineState)
      requires DistinctKeys(state.steps)
      modifies this
      ensures persisted == SavedAfter(old(persisted), state)
      ensures old(PersistedOk(persisted)) ==> PersistedOk(persisted)
      ensures queue == old(queue) && jobs == old(jobs) && processedHashes == old(processedHashes)
      ensures jobToHash == old(jobToHash) && paused == old(paused) && currentJobId == old(currentJobId)
      ensures persistedLoaded == old(persistedLoaded)
    {
      if !IsTerminal(state.status) {
        return;
      }
      PersistRoundTrip(state);
      persisted := persisted[state.jobId := ToPersistDict(state)];
    }

    /** The worker's first action and `_load_persisted_jobs`: once, every job file that
        decodes is read back in listing order, its record stored under its job id (a later
        file with the same id wins), and its hash indexed when it completed with one; every
        such hash is processed. Files that do not decode are skipped. `files` is the
        directory listing. The invariant holds again when the decoded records have
        distinct ids and none is running, as for files the store wrote. */
    method LoadPersistedJobs(files: seq<string>)
      requires Valid()
      requires forall k :: k in persisted <==> k in files
      requires forall i, j :: 0 <= i < j < |files| ==> files[i] != files[j]
      modifies this
      ensures persisted == old(persisted) && persistedLoaded
      ensures old(persistedLoaded) ==>
        Valid() && jobs == old(jobs) && jobToHash == old(jobToHash) && processedHashes == old(processedHashes)
      ensures !old(persistedLoaded) ==>
        var loaded := Parsed(files, persisted);
        jobs == JobsFrom(loaded) && jobToHash == IndexFrom(loaded) && processedHashes == LoadedHashes(loaded) &&
        (LoadedOk(loaded) ==> Valid())
      ensures !old(persistedLoaded) && PersistedOk(persisted) ==>
        Valid() &&
        (forall k :: k in jobs <==> k in persisted) &&
        (forall k :: k in jobs ==> Some(jobs[k]) == FromDict(persisted[k])) &&
        (forall k :: k in jobToHash <==> k in jobs && CompletedHash(jobs[k]).Some?)
      ensures queue == old(queue) && paused == old(paused) && currentJobId == old(currentJobId)
    {
      if persistedLoaded {
        return;
      }
      var loaded := ParseFiles(files, persisted);
      ParsedSteps(files, persisted);
      ApplyLoaded(loaded);
      LoadedValid(loaded);
      if PersistedOk(persisted) {
        LoadedContents(files, persisted);
      }
      persistedLoaded := true;
    }

    /** The locked half of `_load_persisted_jobs`: each record is stored under its id, and
        a completed one with a non-empty hash is indexed and its hash processed. */
    method ApplyLoaded(loaded: seq<PipelineState>)
      requires jobs == map[] && jobToHash == map[] && processedHashes == {}
      modifies this
      ensures jobs == JobsFrom(loaded) && jobToHash == IndexFrom(loaded)
      ensures processedHashes == LoadedHashes(loaded)
      ensures queue == old(queue) && paused == old(paused) && currentJobId == old(currentJobId)
      ensures persisted == old(persisted) && persistedLoaded == old(persistedLoaded)
    {
      var n := 0;
      while n < |loaded|
        invariant 0 <= n <= |loaded|
        invariant jobs == JobsFrom(loaded[..n]) && jobToHash == IndexFrom(loaded[..n])
        invariant processedHashes == LoadedHashes(loaded[..n])
        invariant queue == old(queue) && paused == old(paused) && currentJobId == old(currentJobId)
        invariant persisted == old(persisted) && persistedLoaded == old(persistedLoaded)
      {
        var state := loaded[n];
        jobs := jobs[state.jobId := state];
        var h := if state.status == COMPLETED then state.fileHash else None;
        if h.Some? && h.value != [] {
          processedHashes := processedHashes + {h.value};
          jobToHash := jobToHash[state.jobId := h.value];
        }
        assert loaded[..n + 1] == loaded[..n] + [state];
        n := n + 1;
      }
      assert loaded[..n] == loaded;
    }

    /** The worker's claim (`_worker_loop`, its first locked block and the pre-created
        record): unless paused, the first pending item becomes running, tagged with the
        new job id, and a running record with the three stages is published as the
        current job. Otherwise nothing is claimed and there is no current job. */
    method BeginJob(jobId: string) returns (claimed: bool)
      requires Valid() && persistedLoaded && currentJobId.None?
      requires jobId !in jobs
      modifies this
      ensures Valid()
      ensures claimed <==> !old(paused) && FirstIndex(old(queue), IsPending).Some?
      ensures claimed ==>
        var i := FirstIndex(old(queue), IsPending).value;
        queue == old(queue)[i := Claimed(old(queue)[i], jobId)] &&
        jobs == old(jobs)[jobId := ClaimedRecord(old(queue)[i], jobId)] &&
        currentJobId == Some(jobId)
      ensures !claimed ==> queue == old(queue) && jobs == old(jobs) && currentJobId.None?
      ensures processedHashes == old(processedHashes) && jobToHash == old(jobToHash)
      ensures paused == old(paused) && persistedLoaded == old(persistedLoaded) && persisted == old(persisted)
    {
      var i := FirstPendingIndex(queue);
      if paused || i == |queue| {
        currentJobId := None;
        return false;
      }
      var item := queue[i];
      ClaimKeepsInvariants(queue, jobs, jobToHash, processedHashes, i, jobId);
      queue := queue[i := Claimed(item, jobId)];
      jobs := jobs[jobId := ClaimedRecord(item, jobId)];
      currentJobId := Some(jobId);
      return true;
    }

    /** The finalize block of `_worker_loop`, as intended: no current job; when the worker's
        record is still the stored one, its hash is indexed if it completed with one and it
        is saved if it is terminal; the queue entry tagged with the job id is removed. */
    method Finalize(jobId: string, state: PipelineState)
      requires QueueOk(queue, Some(jobId)) && JobsOk(jobs) && RunningIsCurrent(jobs, None)
      requires HashIndexOk(jobs, jobToHash, processedHashes)
      requires persistedLoaded && currentJobId == Some(jobId)
      requires jobId !in jobToHash && state.jobId == jobId && DistinctKeys(state.steps)
      modifies this
      ensures Valid() && currentJobId.None?
      ensures queue == WithoutJob(old(queue), jobId)
      ensures Live(jobs, state) ==>
        jobToHash == IndexAfter(old(jobToHash), state) && processedHashes == ProcessedAfter(old(processedHashes), state) &&
        persisted == SavedAfter(old(persisted), state)
      ensures !Live(jobs, state) ==>
        jobToHash == old(jobToHash) && processedHashes == old(processedHashes) && persisted == old(persisted)
      ensures old(PersistedOk(persisted)) ==> PersistedOk(persisted)
      ensures jobs == old(jobs) && paused == old(paused) && persistedLoaded == old(persistedLoaded)
    {
      currentJobId := None;
      if jobId in jobs && jobs[jobId] == state {
        RecordHash(state);
        SaveJobState(state);
      }
      DropJobEntry(jobId);
    }

    /** Indexes the hash of a record that completed with one. */
    method RecordHash(state: PipelineState)
      requires HashIndexOk(jobs, jobToHash, processedHashes) && state.jobId !in jobToHash
      requires CompletedHash(state).Some? ==> state.jobId in jobs && jobs[state.jobId] == state
      modifies this
      ensures HashIndexOk(jobs, jobToHash, processedHashes)
      ensures jobToHash == IndexAfter(old(jobToHash), state) && processedHashes == ProcessedAfter(old(processedHashes), state)
      ensures queue == old(queue) && jobs == old(jobs) && paused == old(paused) && currentJobId == old(currentJobId)
      ensures persistedLoaded == old(persistedLoaded) && persisted == old(persisted)
    {
      if state.status == COMPLETED && state.fileHash.Some? && state.fileHash.value != [] {
        HashesWith(jobToHash, state.jobId, state.fileHash.value);
        processedHashes := processedHashes + {state.fileHash.value};
        jobToHash := jobToHash[state.jobId := state.fileHash.value];
      }
    }

    /** Removes the queue entry tagged with the job id, which the current job always has. */
    method DropJobEntry(jobId: string)
      requires QueueOk(queue, Some(jobId))
      modifies this
      ensures queue == WithoutJob(old(queue), jobId) && QueueOk(queue, None)
      ensures jobs == old(jobs) && processedHashes == old(processedHashes) && jobToHash == old(jobToHash)
      ensures paused == old(paused) && currentJobId == old(currentJobId)
      ensures persistedLoaded == old(persistedLoaded) && persisted == old(persisted)
    {
      var i := FirstTaggedIndex(queue, jobId);
      FinishKeepsQueueOk(queue, i, jobId);
      queue := RemoveAt(queue, i);
    }

    /** One worker iteration after the claim: `run_pipeline` on the claimed item, then the
        finalize block. `removedDuringRun` says whether `remove_job` deleted the job while
        it ran. The run updates the published record when it is still present; when it was
        deleted before the run, the run stores a record of its own and the worker's
        record, still running, indexes and saves nothing. A job deleted during the run
        stays deleted: nothing is indexed and no file is written for it. */
    method EndJob(item: QueueItem, runs: seq<PipelineRun.StageRun>, out: PipelineRun.Outputs, cancelFrom: nat,
                  removedDuringRun: bool)
      requires Valid() && currentJobId.Some? && |runs| == 3
      requires item in queue && item.jobId == currentJobId
      modifies this
      ensures Valid() && currentJobId.None?
      ensures var jobId := old(currentJobId).value;
        var existing := if jobId in old(jobs) then Some(old(jobs)[jobId]) else None;
        var s := RunOf(existing, jobId, item, runs, out, cancelFrom);
        var live := existing.Some? && !removedDuringRun;
        jobs == AfterRun(old(jobs), jobId, s, removedDuringRun) && queue == WithoutJob(old(queue), jobId) &&
        jobToHash == (if live then IndexAfter(old(jobToHash), s) else old(jobToHash)) &&
        processedHashes == (if live then ProcessedAfter(old(processedHashes), s) else old(processedHashes)) &&
        persisted == (if live then old(persisted)[jobId := ToPersistDict(s)]
                      else if removedDuringRun then old(persisted) - {jobId} else old(persisted))
      ensures old(DiskOk()) ==> DiskOk()
      ensures paused == old(paused) && persistedLoaded == old(persistedLoaded)
    {
      var jobId := item.jobId.value;
      ghost var jobs0, persisted0 := jobs, persisted;
      var existing := GetJob(jobId);
      var s := RunOn(existing, jobId, item, runs, out, cancelFrom);
      var worker := StoreRun(item, existing, s);
      if removedDuringRun {
        DeleteKeepsIndex(jobs, jobToHash, processedHashes, jobId);
        DeleteUnindexed(jobId);
      }
      RunLeavesLive(existing, s, item, jobId, removedDuringRun, jobs0, persisted0);
      Finalize(jobId, worker);
    }

    /** The records after the worker's `run_pipeline` call: the run's finished record is
        stored under the job id, and the worker is left with its own view of the record. */
    method StoreRun(item: QueueItem, existing: Option<PipelineState>, s: PipelineState)
      returns (worker: PipelineState)
      requires currentJobId.Some? && item.jobId == currentJobId
      requires existing == if currentJobId.value in jobs then Some(jobs[currentJobId.value]) else None
      requires JobsOk(jobs) && CurrentOk(jobs, currentJobId) && RunningIsCurrent(jobs, currentJobId)
      requires HashIndexOk(jobs, jobToHash, processedHashes)
      requires s.jobId == currentJobId.value && DistinctKeys(s.steps) && IsTerminal(s.status)
      modifies this
      ensures var jobId := old(currentJobId).value;
        jobs == old(jobs)[jobId := s] && worker == WorkerView(existing, s, item, jobId) &&
        jobId !in jobToHash && worker.jobId == jobId && DistinctKeys(worker.steps)
      ensures JobsOk(jobs) && RunningIsCurrent(jobs, None) && HashIndexOk(jobs, jobToHash, processedHashes)
      ensures queue == old(queue) && jobToHash == old(jobToHash) && processedHashes == old(processedHashes)
      ensures paused == old(paused) && currentJobId == old(currentJobId)
      ensures persistedLoaded == old(persistedLoaded) && persisted == old(persisted)
    {
      var jobId := item.jobId.value;
      EndKeepsIndex(jobs, jobToHash, processedHashes, jobId, s);
      worker := WorkerView(existing, s, item, jobId);
      jobs := jobs[jobId := s];
    }

    /** `remove_job` on a job that is not indexed: the record and its file go, and the
        index and the processed set stay as they are. */
    method DeleteUnindexed(jobId: string)
      requires jobId !in jobToHash
      modifies this
      ensures jobs == old(jobs) - {jobId} && persisted == old(persisted) - {jobId}
      ensures queue == old(queue) && jobToHash == old(jobToHash) && processedHashes == old(processedHashes)
      ensures paused == old(paused) && currentJobId == old(currentJobId) && persistedLoaded == old(persistedLoaded)
    {
      jobs := jobs - {jobId};
      var r := Forget(processedHashes, jobToHash, jobId);
      assert jobToHash - {jobId} == jobToHash;
      assert r == (processedHashes, jobToHash);
      processedHashes, jobToHash := r.0, r.1;
      persisted := persisted - {jobId};
    }
  }

  /** `run_pipeline` on a claimed item, from the record stored at its start, if any. */
  method RunOn(existing: Option<PipelineState>, jobId: string, item: QueueItem,
               runs: seq<PipelineRun.StageRun>, out: PipelineRun.Outputs, cancelFrom: nat)
    returns (s: PipelineState)
    requires |runs| == 3
    requires existing.Some? ==> existing.value.jobId == jobId && HasStandardSteps(existing.value.steps)
    ensures s == RunOf(existing, jobId, item, runs, out, cancelFrom)
    ensures s.jobId == jobId && DistinctKeys(s.steps) && IsTerminal(s.status)
  {
    RunKeepsRecordShape(existing, jobId, item, runs, out, cancelFrom);
    var raised;
    s, raised := PipelineRun.RunPipeline(existing, jobId, item.originalFilename,
                                         HashOption(item.fileHash), item.folderId, runs, out, cancelFrom);
  }

  // ===========================================================================
  // Lemmas over the queue invariant

  /** Removing a pending item keeps the queue invariant. */
  lemma RemovePendingKeepsQueueOk(q: seq<QueueItem>, i: nat, current: Option<string>)
    requires QueueOk(q, current) && i < |q| && q[i].status == ItemPending
    ensures QueueOk(RemoveAt(q, i), current)
  {
    var r := RemoveAt(q, i);
    if current.Some? {
      var k :| 0 <= k < |q| && q[k].jobId == current;
      assert k != i;
      if k < i {
        assert r[k] == q[k];
      } else {
        assert r[k - 1] == q[k];
      }
    }
    RemoveAtKeepsDistinct(q, i);
    RemoveAtKeepsOneRunning(q, i);
  }

  /** Removing an item leaves at most one running item. */
  lemma RemoveAtKeepsOneRunning(q: seq<QueueItem>, i: nat)
    requires i < |q|
    requires forall a, b :: 0 <= a < b < |q| ==> !(q[a].status == ItemRunning && q[b].status == ItemRunning)
    ensures var r := RemoveAt(q, i);
      forall a, b :: 0 <= a < b < |r| ==> !(r[a].status == ItemRunning && r[b].status == ItemRunning)
  {
    var r := RemoveAt(q, i);
    forall a, b | 0 <= a < b < |r| ensures !(r[a].status == ItemRunning && r[b].status == ItemRunning) {
      var a', b' := if a < i then a else a + 1, if b < i then b else b + 1;
      assert r[a] == q[a'] && r[b] == q[b'];
    }
  }

  /** Deleting a job, its index entry (the intended way) and its file keeps the invariants
      on records, on the index and on the files. */
  lemma RemoveKeepsInvariants(jobs: map<string, PipelineState>, jobToHash: map<string, string>,
                              processed: set<string>, current: Option<string>, jobId: string)
    requires JobsOk(jobs) && CurrentOk(jobs, current) && RunningIsCurrent(jobs, current)
    requires HashIndexOk(jobs, jobToHash, processed)
    ensures JobsOk(jobs - {jobId}) && CurrentOk(jobs - {jobId}, current) && RunningIsCurrent(jobs - {jobId}, current)
    ensures var r := Forget(processed, jobToHash, jobId); HashIndexOk(jobs - {jobId}, r.1, r.0)
  {
  }

  /** With unique queue ids, once the item is removed no item with its id remains. */
  lemma NoOtherWithId(q: seq<QueueItem>, i: nat, queueId: string)
    requires QueueOk(q, None) || (forall a, b :: 0 <= a < b < |q| ==> q[a].queueId != q[b].queueId)
    requires i < |q| && q[i].queueId == queueId
    ensures FirstIndex(RemoveAt(q, i), PendingWithId(queueId)).None?
  {
  }

  // ===========================================================================
  // Lemmas over claim and finalize

  /** Claiming a pending item while no job is current keeps every invariant. */
  lemma ClaimKeepsInvariants(queue: seq<QueueItem>, jobs: map<string, PipelineState>,
                             jobToHash: map<string, string>, processed: set<string>, i: nat, jobId: string)
    requires QueueOk(queue, None) && JobsOk(jobs) && RunningIsCurrent(jobs, None) && HashIndexOk(jobs, jobToHash, processed)
    requires i < |queue| && IsPending(queue[i]) && jobId !in jobs
    ensures var q := queue[i := Claimed(queue[i], jobId)];
      var js := jobs[jobId := ClaimedRecord(queue[i], jobId)];
      QueueOk(q, Some(jobId)) && JobsOk(js) && CurrentOk(js, Some(jobId)) && RunningIsCurrent(js, Some(jobId)) &&
      HashIndexOk(js, jobToHash, processed)
  {
    var q := queue[i := Claimed(queue[i], jobId)];
    assert q[i].jobId == Some(jobId);
    forall a | 0 <= a < |queue| ensures queue[a].status == ItemPending {
      assert queue[a].jobId.None?;
    }
  }

  /** While no job is current nothing is claimed, so the worker always takes the oldest
      item: the queue is served first in, first out. */
  lemma ClaimTakesHead(queue: seq<QueueItem>)
    requires QueueOk(queue, None) && |queue| > 0
    ensures FirstIndex(queue, IsPending) == Some(0)
  {
    assert queue[0].jobId.None?;
  }

  /** Removing the entry tagged with the current job leaves no claimed entry. */
  lemma FinishKeepsQueueOk(q: seq<QueueItem>, i: nat, jobId: string)
    requires QueueOk(q, Some(jobId)) && i < |q| && q[i].jobId == Some(jobId)
    requires forall j :: 0 <= j < i ==> !HasJobTag(jobId)(q[j])
    ensures WithoutJob(q, jobId) == RemoveAt(q, i)
    ensures QueueOk(RemoveAt(q, i), None)
  {
    FirstIndexAt(q, HasJobTag(jobId), i);
    OnlyOneRunning(q, i);
    var r := RemoveAt(q, i);
    forall a | 0 <= a < |r| ensures r[a].status == ItemPending && r[a].jobId.None? {
      var a' := if a < i then a else a + 1;
      assert r[a] == q[a'];
    }
    RemoveAtKeepsDistinct(q, i);
  }

  /** Besides the running item, every item of a valid queue is pending. */
  lemma OnlyOneRunning(q: seq<QueueItem>, i: nat)
    requires i < |q| && q[i].status == ItemRunning
    requires forall a, b :: 0 <= a < b < |q| ==> !(q[a].status == ItemRunning && q[b].status == ItemRunning)
    ensures forall a :: 0 <= a < |q| && a != i ==> q[a].status == ItemPending
  {
    forall a | 0 <= a < |q| && a != i ensures q[a].status == ItemPending {
      var lo, hi := if a < i then a else i, if a < i then i else a;
      assert !(q[lo].status == ItemRunning && q[hi].status == ItemRunning);
    }
  }

  /** Removing an item keeps the queue ids unique. */
  lemma RemoveAtKeepsDistinct(q: seq<QueueItem>, i: nat)
    requires i < |q| && forall a, b :: 0 <= a < b < |q| ==> q[a].queueId != q[b].queueId
    ensures var r := RemoveAt(q, i); forall a, b :: 0 <= a < b < |r| ==> r[a].queueId != r[b].queueId
  {
    var r := RemoveAt(q, i);
    forall a, b | 0 <= a < b < |r| ensures r[a].queueId != r[b].queueId {
      var a', b' := if a < i then a else a + 1, if b < i then b else b + 1;
      assert r[a] == q[a'] && r[b] == q[b'];
    }
  }

  /** The current job's record is not indexed, and replacing it by a finished record of
      the same id keeps the record and index invariants and leaves no record running. */
  lemma EndKeepsIndex(jobs: map<string, PipelineState>, jobToHash: map<string, string>,
                      processed: set<string>, jobId: string, s: PipelineState)
    requires JobsOk(jobs) && CurrentOk(jobs, Some(jobId)) && RunningIsCurrent(jobs, Some(jobId))
    requires HashIndexOk(jobs, jobToHash, processed)
    requires s.jobId == jobId && DistinctKeys(s.steps) && IsTerminal(s.status)
    ensures jobId !in jobToHash
    ensures JobsOk(jobs[jobId := s]) && RunningIsCurrent(jobs[jobId := s], None)
    ensures HashIndexOk(jobs[jobId := s], jobToHash, processed)
  {
    assert jobId in jobs ==> jobs[jobId].status == RUNNING;
  }

  /** Deleting a job that is not indexed keeps the record and index invariants. */
  lemma DeleteKeepsIndex(jobs: map<string, PipelineState>, jobToHash: map<string, string>,
                         processed: set<string>, jobId: string)
    requires JobsOk(jobs) && RunningIsCurrent(jobs, None) && HashIndexOk(jobs, jobToHash, processed)
    requires jobId !in jobToHash
    ensures JobsOk(jobs - {jobId}) && RunningIsCurrent(jobs - {jobId}, None)
    ensures HashIndexOk(jobs - {jobId}, jobToHash, processed)
  {
    forall j | j in jobToHash ensures j in jobs - {jobId} {
      assert j != jobId;
    }
  }

  /** The finalize block finds the worker's record still stored exactly when the run
      updated the published record and the job was not deleted during the run; the record
      is then the run's finished one, and saving writes it. */
  lemma RunLeavesLive(existing: Option<PipelineState>, s: PipelineState, item: QueueItem, jobId: string,
                      removed: bool, jobs: map<string, PipelineState>, persisted: map<string, Value>)
    requires s.jobId == jobId && IsTerminal(s.status)
    ensures var worker := WorkerView(existing, s, item, jobId);
      (Live(AfterRun(jobs, jobId, s, removed), worker) <==> existing.Some? && !removed) &&
      (existing.Some? ==> worker == s && SavedAfter(persisted, s) == persisted[jobId := ToPersistDict(s)])
  {
    if existing.None? {
      assert WorkerView(existing, s, item, jobId).status == RUNNING;
    }
  }

  /** The finalize block as written (lines 379-383 index and save the worker's record
      without looking it up): a completed job deleted while it ran is indexed though it is
      gone, so the index invariant breaks, and its file is written again, so the next
      start-up loads the deleted job back. */
  lemma FinalizeAsWrittenRevivesRemovedJob()
    ensures var s := NewJob("j", "talk.mp3", Some("h"), None).(status := COMPLETED);
      var jobs: map<string, PipelineState> := map[];
      !HashIndexOk(jobs, IndexAfter(map[], s), ProcessedAfter({}, s)) &&
      "j" in SavedAfter(map[], s) && FromDict(SavedAfter(map[], s)["j"]).Some?
  {
    var s := NewJob("j", "talk.mp3", Some("h"), None).(status := COMPLETED);
    assert CompletedHash(s) == Some("h");
    assert "j" in IndexAfter(map[], s);
    PersistRoundTrip(s);
  }

  /** The intended finalize block, which indexes the worker's record only while it is
      still stored, keeps the index invariant. */
  lemma FinalizeKeepsIndex(jobs: map<string, PipelineState>, jobToHash: map<string, string>,
                           processed: set<string>, state: PipelineState)
    requires HashIndexOk(jobs, jobToHash, processed) && state.jobId !in jobToHash
    ensures var live := Live(jobs, state);
      HashIndexOk(jobs, if live then IndexAfter(jobToHash, state) else jobToHash,
                  if live then ProcessedAfter(processed, state) else processed)
  {
    if Live(jobs, state) && CompletedHash(state).Some? {
      HashesWith(jobToHash, state.jobId, CompletedHash(state).value);
    }
  }

  /** The run's record contributes a hash exactly when every stage returned with no
      cancel seen and the record carries a non-empty hash; a non-empty hash of the item is
      the one the record carries. */
  lemma EndJobIndexes(existing: Option<PipelineState>, jobId: string, item: QueueItem,
                      runs: seq<PipelineRun.StageRun>, out: PipelineRun.Outputs, cancelFrom: nat)
    requires |runs| == 3 && (existing.Some? ==> HasStandardSteps(existing.value.steps))
    ensures var s := RunOf(existing, jobId, item, runs, out, cancelFrom);
      (CompletedHash(s).Some? <==>
        5 < cancelFrom && (forall i :: 0 <= i < 3 ==> runs[i].exit.Returned?) &&
        s.fileHash.Some? && s.fileHash.value != []) &&
      (item.fileHash != [] ==> s.fileHash == Some(item.fileHash))
  {
    var base := PipelineRun.Prepared(existing, jobId, item.originalFilename, HashOption(item.fileHash), item.folderId);
    PipelineRun.CompletedExactly(base, runs, out, item.originalFilename, cancelFrom);
    PipelineRun.RunKeepsIdentity(base, runs, out, item.originalFilename, cancelFrom);
  }

  /** The record a run leaves keeps its job id, has the three stages, and is terminal. */
  lemma RunKeepsRecordShape(existing: Option<PipelineState>, jobId: string, item: QueueItem,
                            runs: seq<PipelineRun.StageRun>, out: PipelineRun.Outputs, cancelFrom: nat)
    requires |runs| == 3
    requires existing.Some? ==> existing.value.jobId == jobId && HasStandardSteps(existing.value.steps)
    ensures var s := RunOf(existing, jobId, item, runs, out, cancelFrom);
      s.jobId == jobId && HasStandardSteps(s.steps) && DistinctKeys(s.steps) && IsTerminal(s.status)
  {
    var base := PipelineRun.Prepared(existing, jobId, item.originalFilename, HashOption(item.fileHash), item.folderId);
    var s := PipelineRun.RunResult(base, runs, out, item.originalFilename, cancelFrom);
    assert RunOf(existing, jobId, item, runs, out, cancelFrom) == s;
    assert base.jobId == jobId;
    PipelineRun.RunKeepsIdentity(base, runs, out, item.originalFilename, cancelFrom);
    PipelineRun.RunResultSteps(base, runs, out, item.originalFilename, cancelFrom);
    PipelineRun.RunEndsTerminal(base, runs, out, item.originalFilename, cancelFrom);
    StandardStepsDistinct(s.steps);
  }

  // ===========================================================================
  // Queue scans

  /** The scan of the claim block: the index of the first pending item, or `|queue|`. */
  method FirstPendingIndex(queue: seq<QueueItem>) returns (i: nat)
    ensures i <= |queue|
    ensures i < |queue| <==> FirstIndex(queue, IsPending).Some?
    ensures i < |queue| ==> FirstIndex(queue, IsPending).value == i
  {
    i := 0;
    while i < |queue| && queue[i].status != ItemPending
      invariant 0 <= i <= |queue|
      invariant forall j :: 0 <= j < i ==> !IsPending(queue[j])
    {
      i := i + 1;
    }
  }

  /** The position of the first entry tagged with the job id, in a queue that has one. */
  method FirstTaggedIndex(queue: seq<QueueItem>, jobId: string) returns (i: nat)
    requires exists k :: 0 <= k < |queue| && queue[k].jobId == Some(jobId)
    ensures i < |queue| && queue[i].jobId == Some(jobId)
    ensures forall j :: 0 <= j < i ==> !HasJobTag(jobId)(queue[j])
  {
    ghost var k :| 0 <= k < |queue| && queue[k].jobId == Some(jobId);
    i := 0;
    while queue[i].jobId != Some(jobId)
      invariant 0 <= i <= k
      invariant forall j :: 0 <= j < i ==> !HasJobTag(jobId)(queue[j])
      decreases k - i
    {
      i := i + 1;
    }
  }

  // ===========================================================================
  // Loading the job files

  /** The unlocked half of `_load_persisted_jobs`: every listed file is decoded, and the
      ones that do not decode are skipped. */
  method ParseFiles(files: seq<string>, persisted: map<string, Value>) returns (loaded: seq<PipelineState>)
    requires forall i :: 0 <= i < |files| ==> files[i] in persisted
    ensures loaded == Parsed(files, persisted)
  {
    loaded := [];
    var i := 0;
    while i < |files|
      invariant 0 <= i <= |files|
      invariant loaded == Parsed(files[..i], persisted)
    {
      var state := FromDict(persisted[files[i]]);
      if state.Some? {
        loaded := loaded + [state.value];
      }
      assert files[..i + 1] == files[..i] + [files[i]];
      i := i + 1;
    }
    assert files[..i] == files;
  }

  /** The records the readable files decode to, in listing order. */
  function Parsed(files: seq<string>, persisted: map<string, Value>): seq<PipelineState>
    requires forall i :: 0 <= i < |files| ==> files[i] in persisted
  {
    if files == [] then []
    else
      var prefix := Parsed(files[..|files| - 1], persisted);
      match FromDict(persisted[files[|files| - 1]])
      case Some(s) => prefix + [s]
      case None => prefix
  }

  /** The records stored by loading, each under its own id. */
  function JobsFrom(loaded: seq<PipelineState>): map<string, PipelineState> {
    if loaded == [] then map[]
    else
      var last := loaded[|loaded| - 1];
      JobsFrom(loaded[..|loaded| - 1])[last.jobId := last]
  }

  /** The index entries loading adds: completed records with a hash. */
  function IndexFrom(loaded: seq<PipelineState>): map<string, string> {
    if loaded == [] then map[]
    else
      var last := loaded[|loaded| - 1];
      var m := IndexFrom(loaded[..|loaded| - 1]);
      if CompletedHash(last).Some? then m[last.jobId := CompletedHash(last).value] else m
  }

  /** The hashes loading marks processed: that of every completed record with a hash,
      including one a later record of the same id replaced. */
  function LoadedHashes(loaded: seq<PipelineState>): set<string> {
    if loaded == [] then {}
    else
      var last := loaded[|loaded| - 1];
      var hs := LoadedHashes(loaded[..|loaded| - 1]);
      if CompletedHash(last).Some? then hs + {CompletedHash(last).value} else hs
  }

  /** Loaded records the invariant can rest on: distinct ids, and none left running. */
  predicate LoadedOk(loaded: seq<PipelineState>) {
    (forall i, j :: 0 <= i < j < |loaded| ==> loaded[i].jobId != loaded[j].jobId) &&
    (forall i :: 0 <= i < |loaded| ==> loaded[i].status != RUNNING)
  }

  /** Every decoded record has unique step keys. */
  lemma {:induction false} ParsedSteps(files: seq<string>, persisted: map<string, Value>)
    requires forall i :: 0 <= i < |files| ==> files[i] in persisted
    ensures forall i :: 0 <= i < |Parsed(files, persisted)| ==> DistinctKeys(Parsed(files, persisted)[i].steps)
  {
    if files != [] {
      ParsedSteps(files[..|files| - 1], persisted);
    }
  }

  /** With distinct ids, the processed hashes are exactly the indexed ones. */
  lemma {:induction false} LoadedHashesIndexed(loaded: seq<PipelineState>)
    requires forall i, j :: 0 <= i < j < |loaded| ==> loaded[i].jobId != loaded[j].jobId
    ensures LoadedHashes(loaded) == HashesOf(IndexFrom(loaded))
  {
    if loaded != [] {
      var init := loaded[..|loaded| - 1];
      var last := loaded[|loaded| - 1];
      LoadedHashesIndexed(init);
      LoadedIdFresh(loaded, |loaded| - 1);
      assert loaded[..|loaded| - 1] == init;
      if CompletedHash(last).Some? {
        HashesWith(IndexFrom(init), last.jobId, CompletedHash(last).value);
      }
    }
  }

  /** Records with distinct ids, none running, give a store whose invariant holds. */
  lemma LoadedValid(loaded: seq<PipelineState>)
    requires forall i :: 0 <= i < |loaded| ==> DistinctKeys(loaded[i].steps)
    ensures LoadedOk(loaded) ==>
      var jobs := JobsFrom(loaded);
      JobsOk(jobs) && RunningIsCurrent(jobs, None) && HashIndexOk(jobs, IndexFrom(loaded), LoadedHashes(loaded))
  {
    if LoadedOk(loaded) {
      LoadedIndex(loaded);
      JobsFromKeys(loaded);
      LoadedHashesIndexed(loaded);
      var jobs := JobsFrom(loaded);
      forall k | k in jobs ensures jobs[k].jobId == k && DistinctKeys(jobs[k].steps) && jobs[k].status != RUNNING {
        var i :| 0 <= i < |loaded| && loaded[i].jobId == k;
      }
    }
  }

  /** Two files naming one job: the later record replaces the earlier in the store, but
      the earlier one's hash stays indexed under the id, on a record that did not
      complete, so the index invariant does not hold. */
  lemma DuplicateIdKeepsStaleHash()
    ensures var a := NewJob("j", "talk.mp3", Some("h"), None).(status := COMPLETED);
      var b := a.(status := FAILED);
      var loaded := [a, b];
      JobsFrom(loaded) == map["j" := b] && IndexFrom(loaded) == map["j" := "h"] &&
      !HashIndexOk(JobsFrom(loaded), IndexFrom(loaded), LoadedHashes(loaded))
  {
    var a := NewJob("j", "talk.mp3", Some("h"), None).(status := COMPLETED);
    var b := a.(status := FAILED);
    assert [a, b][..1] == [a];
    assert [a][..0] == [];
    assert JobsFrom([a]) == map["j" := a];
    assert IndexFrom([a]) == map["j" := "h"];
    assert CompletedHash(b).None?;
  }

  /** Files the store wrote all decode, to records named after the files. */
  lemma {:induction false} ParsedAll(files: seq<string>, persisted: map<string, Value>)
    requires PersistedOk(persisted)
    requires forall i :: 0 <= i < |files| ==> files[i] in persisted
    ensures var l := Parsed(files, persisted);
      |l| == |files| &&
      forall i :: 0 <= i < |files| ==> Some(l[i]) == FromDict(persisted[files[i]]) && l[i].jobId == files[i]
  {
    if files != [] {
      var init, last := files[..|files| - 1], files[|files| - 1];
      ParsedAll(init, persisted);
      var prefix := Parsed(init, persisted);
      var s := FromDict(persisted[last]).value;
      var l := prefix + [s];
      assert Parsed(files, persisted) == l;
      forall i | 0 <= i < |files|
        ensures Some(l[i]) == FromDict(persisted[files[i]]) && l[i].jobId == files[i]
      {
        if i < |init| {
          assert l[i] == prefix[i] && files[i] == init[i];
        }
      }
    }
  }

  /** With distinct ids, the stored records are exactly the loaded ones. */
  lemma {:induction false} JobsFromKeys(loaded: seq<PipelineState>)
    ensures forall k :: k in JobsFrom(loaded) <==> exists i :: 0 <= i < |loaded| && loaded[i].jobId == k
    ensures forall k :: k in IndexFrom(loaded) ==> k in JobsFrom(loaded)
  {
    if loaded != [] {
      var init := loaded[..|loaded| - 1];
      JobsFromKeys(init);
      forall k | k in JobsFrom(loaded) ensures exists i :: 0 <= i < |loaded| && loaded[i].jobId == k {
        if k != loaded[|loaded| - 1].jobId {
          assert k in JobsFrom(init);
          var i :| 0 <= i < |init| && init[i].jobId == k;
          assert loaded[i].jobId == k;
        }
      }
      forall k | exists i :: 0 <= i < |loaded| && loaded[i].jobId == k ensures k in JobsFrom(loaded) {
        var i :| 0 <= i < |loaded| && loaded[i].jobId == k;
        if i < |init| {
          assert init[i].jobId == k;
        }
      }
    }
  }

  /** The record about to be applied is new to the index. */
  lemma LoadedIdFresh(loaded: seq<PipelineState>, n: nat)
    requires n < |loaded|
    requires forall i, j :: 0 <= i < j < |loaded| ==> loaded[i].jobId != loaded[j].jobId
    ensures loaded[n].jobId !in JobsFrom(loaded[..n]) && loaded[n].jobId !in IndexFrom(loaded[..n])
  {
    JobsFromKeys(loaded[..n]);
  }

  /** With distinct ids, the index holds exactly the completed records that carry a hash. */
  lemma {:induction false} LoadedIndex(loaded: seq<PipelineState>)
    requires forall i, j :: 0 <= i < j < |loaded| ==> loaded[i].jobId != loaded[j].jobId
    ensures forall k :: k in IndexFrom(loaded) <==> k in JobsFrom(loaded) && CompletedHash(JobsFrom(loaded)[k]).Some?
    ensures forall k :: k in IndexFrom(loaded) ==> CompletedHash(JobsFrom(loaded)[k]) == Some(IndexFrom(loaded)[k])
    ensures forall i :: 0 <= i < |loaded| ==> loaded[i].jobId in JobsFrom(loaded) && JobsFrom(loaded)[loaded[i].jobId] == loaded[i]
  {
    if loaded != [] {
      var init := loaded[..|loaded| - 1];
      LoadedIndex(init);
      LoadedIdFresh(loaded, |loaded| - 1);
      assert loaded[..|loaded| - 1] == init;
      forall i | 0 <= i < |loaded| ensures loaded[i].jobId in JobsFrom(loaded) && JobsFrom(loaded)[loaded[i].jobId] == loaded[i] {
        if i < |init| {
          assert init[i] == loaded[i];
        }
      }
    }
  }

  /** The files the store wrote decode to records with distinct ids, none running. */
  lemma WrittenFilesLoadOk(files: seq<string>, persisted: map<string, Value>)
    requires PersistedOk(persisted)
    requires forall i :: 0 <= i < |files| ==> files[i] in persisted
    requires forall i, j :: 0 <= i < j < |files| ==> files[i] != files[j]
    ensures LoadedOk(Parsed(files, persisted))
  {
    var l := Parsed(files, persisted);
    ParsedAll(files, persisted);
    forall i | 0 <= i < |l| ensures l[i].status != RUNNING {
      assert IsTerminal(FromDict(persisted[files[i]]).value.status);
    }
  }

  /** Loading the files the store wrote restores each record under its file's name and
      indexes exactly the completed ones with a hash. */
  lemma LoadedContents(files: seq<string>, persisted: map<string, Value>)
    requires PersistedOk(persisted)
    requires forall k :: k in persisted <==> k in files
    requires forall i, j :: 0 <= i < j < |files| ==> files[i] != files[j]
    ensures var l := Parsed(files, persisted);
      var jobs := JobsFrom(l);
      var index := IndexFrom(l);
      LoadedOk(l) && JobsOk(jobs) && HashIndexOk(jobs, index, HashesOf(index)) &&
      (forall k :: k in jobs <==> k in persisted) &&
      (forall k :: k in jobs ==> Some(jobs[k]) == FromDict(persisted[k])) &&
      (forall k :: k in index <==> k in jobs && CompletedHash(jobs[k]).Some?)
  {
    var l := Parsed(files, persisted);
    ParsedAll(files, persisted);
    WrittenFilesLoadOk(files, persisted);
    LoadedIndex(l);
    JobsFromKeys(l);
    var jobs := JobsFrom(l);
    forall k | k in persisted ensures k in jobs {
      var i :| 0 <= i < |files| && files[i] == k;
    }
    forall k | k in jobs ensures k in persisted && Some(jobs[k]) == FromDict(persisted[k]) && jobs[k].jobId == k && DistinctKeys(jobs[k].steps) {
      var i :| 0 <= i < |l| && l[i].jobId == k;
    }
  }
}
