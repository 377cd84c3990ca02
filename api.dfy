/**
  * The HTTP layer's own logic: the file checks and content types, the parsing of folder
  * ids from forms and query strings, the blank-query shortcut of the search endpoints,
  * and the two ways an upload reaches the queue, where the duplicate and already-processed
  * checks only add warnings and the item is enqueued regardless.
  *
  * Request parsing, streaming, hashing and the uuid-based names are not modelled: a file
  * arrives with its size, hash and saved path, and queue ids are parameters.
  */
module Api {
  import opened Wrappers
  import opened Text
  import opened Paths
  import Storage
  import Contracts
  import JobStore
  import JobState
  import opened StepsText

  const MAX_FILE_SIZE_MB := 100
  const MAX_FILE_SIZE_BYTES := MAX_FILE_SIZE_MB * 1024 * 1024
  const ALLOWED_EXTENSIONS: set<string> := {".mp3", ".wav", ".mp4"}
  const OCTET_STREAM := "application/octet-stream"

  /** Why a request is refused. */
  datatype Rejection =
    | NotConfigured // 503: no upload bucket is configured
    | NoFiles       // 400
    | BadFormat     // 400: the extension is not allowed
    | TooLarge      // 400: over MAX_FILE_SIZE_BYTES

  function StatusCode(r: Rejection): int {
    if r == NotConfigured then 503 else 400
  }

  /** An extension as `Path.suffix` gives it: a dot, then at least one character, with
      no further dot and no slash. */
  predicate IsExtension(ext: string) {
    2 <= |ext| && ext[0] == '.' && '.' !in ext[1..] && '/' !in ext
  }

  // ---------------------------------------------------------------- file checks

  /** `_validate_file`: the extension is checked first, then the size; a size of exactly
      the limit passes. */
  function ValidateFile(filename: string, size: int): (r: Option<Rejection>)
    ensures r.None? <==> Lower(Suffix(filename)) in ALLOWED_EXTENSIONS && size <= MAX_FILE_SIZE_BYTES
    ensures Lower(Suffix(filename)) !in ALLOWED_EXTENSIONS ==> r == Some(BadFormat)
    ensures r.Some? ==> r.value == BadFormat || r.value == TooLarge
  {
    if Lower(Suffix(filename)) !in ALLOWED_EXTENSIONS then Some(BadFormat)
    else if size > MAX_FILE_SIZE_BYTES then Some(TooLarge)
    else None
  }

  /** A name `stem + ext` with an allowed extension, in any letter case, passes exactly
      when it is at most 100 MiB. */
  lemma ValidateFileByName(stem: string, ext: string, size: int)
    requires stem != [] && '/' !in stem && IsExtension(ext)
    requires Lower(ext) in ALLOWED_EXTENSIONS
    ensures ValidateFile(stem + ext, size).None? <==> size <= 100 * 1024 * 1024
    ensures ValidateFile(stem + ext, size) == Some(TooLarge) <==> size > 100 * 1024 * 1024
  {
    SuffixOfName(stem, ext);
  }

  /** A file called just `.mp3` has no suffix, so it is refused for its format. */
  lemma DotFileRejected(ext: string, size: int)
    requires IsExtension(ext)
    ensures ValidateFile(ext, size) == Some(BadFormat)
  {
    DotFileHasNoSuffix(ext);
    assert Lower([]) == [];
  }

  /** `_content_type_for_extension`, case-insensitive; None and anything else give
      `application/octet-stream`. */
  function ContentTypeForExtension(suffix: Option<string>): (r: string)
    ensures r != OCTET_STREAM <==> Lower(suffix.GetOr("")) in ALLOWED_EXTENSIONS
    ensures r in {"audio/mpeg", "audio/wav", "video/mp4", OCTET_STREAM}
  {
    var suf := Lower(suffix.GetOr(""));
    if suf == ".mp3" then "audio/mpeg"
    else if suf == ".wav" then "audio/wav"
    else if suf == ".mp4" then "video/mp4"
    else OCTET_STREAM
  }

  /** A file that passes the check is signed for upload with a media type. */
  lemma AcceptedFileHasMediaType(filename: string, size: int)
    requires ValidateFile(filename, size).None?
    ensures ContentTypeForExtension(Some(Suffix(filename))) != OCTET_STREAM
  {
  }

  /** The pipeline's own upload contract is stricter than the endpoint's check: what it
      accepts the endpoint accepts, but an empty file passes the endpoint and not the
      contract. */
  lemma UploadContractStricter(filename: string, size: int)
    ensures Contracts.ValidateUploadInput(filename, size, ALLOWED_EXTENSIONS, MAX_FILE_SIZE_BYTES, true).None? ==>
      ValidateFile(filename, size).None?
    ensures ValidateFile(filename, 0).None? ==>
      Contracts.ValidateUploadInput(filename, 0, ALLOWED_EXTENSIONS, MAX_FILE_SIZE_BYTES, true) ==
      Some(Contracts.SizeOutOfRange(0))
  {
  }

  // ---------------------------------------------------------------- folder ids

  /** The integers among the stripped, non-empty pieces, in order; the others are skipped. */
  function ParsePieces(pieces: seq<string>): (r: seq<int>)
    ensures |r| <= |pieces|
  {
    if pieces == [] then [] else PieceValue(pieces[0]) + ParsePieces(pieces[1..])
  }

  /** What one piece contributes: its integer, or nothing when it is blank or not one. */
  function PieceValue(piece: string): (r: seq<int>)
    ensures |r| <= 1
    ensures r != [] <==> Strip(piece) != [] && ParseInt(Strip(piece)).Some?
    ensures r != [] ==> r[0] == ParseInt(Strip(piece)).value
  {
    var s := Strip(piece);
    if s == [] then []
    else match ParseInt(s)
      case Some(v) => [v]
      case None => []
  }

  /** `_parse_folder_ids`: None for a missing or blank string; otherwise the integers
      among its comma-separated pieces, or None when there are none. */
  function ParseFolderIds(folderIds: Option<string>): (r: Option<seq<int>>)
    ensures folderIds.None? || Strip(folderIds.value) == [] ==> r.None?
    ensures r.Some? ==> r.value != [] && r.value == ParsePieces(SplitOn(Strip(folderIds.value), ','))
    ensures folderIds.Some? && Strip(folderIds.value) != [] && ParsePieces(SplitOn(Strip(folderIds.value), ',')) != [] ==>
      r.Some?
  {
    if folderIds.None? || Strip(folderIds.value) == [] then None
    else
      var out := ParsePieces(SplitOn(Strip(folderIds.value), ','));
      if out == [] then None else Some(out)
  }

  lemma {:induction false} ParsePiecesAppend(a: seq<string>, b: seq<string>)
    ensures ParsePieces(a + b) == ParsePieces(a) + ParsePieces(b)
  {
    if a != [] {
      assert (a + b)[0] == a[0] && (a + b)[1..] == a[1..] + b;
      ParsePiecesAppend(a[1..], b);
      assert PieceValue(a[0]) + (ParsePieces(a[1..]) + ParsePieces(b)) ==
        (PieceValue(a[0]) + ParsePieces(a[1..])) + ParsePieces(b);
    } else {
      assert a + b == b;
    }
  }

  /** The parsed list is the pieces before `k`, then what piece `k` contributes, then the
      pieces after it. */
  lemma ParsePiecesAt(pieces: seq<string>, k: nat)
    requires k < |pieces|
    ensures ParsePieces(pieces) == ParsePieces(pieces[..k]) + PieceValue(pieces[k]) + ParsePieces(pieces[k + 1..])
  {
    SplitAround(pieces, k);
    ParsePiecesAppend(pieces[..k] + [pieces[k]], pieces[k + 1..]);
    ParsePiecesAppend(pieces[..k], [pieces[k]]);
    assert ParsePieces([pieces[k]]) == PieceValue(pieces[k]) by {
      assert [pieces[k]][1..] == [];
    }
  }

  lemma SplitAround<T>(s: seq<T>, k: nat)
    requires k < |s|
    ensures s == s[..k] + [s[k]] + s[k + 1..]
  {
  }

  /** One integer piece is enough for a list: its value appears in the result after the
      values of the pieces before it. */
  lemma IntegerPieceGivesIds(folderIds: string, k: nat)
    requires Strip(folderIds) != []
    requires var pieces := SplitOn(Strip(folderIds), ',');
      k < |pieces| && Strip(pieces[k]) != [] && ParseInt(Strip(pieces[k])).Some?
    ensures var pieces := SplitOn(Strip(folderIds), ',');
      var r := ParseFolderIds(Some(folderIds));
      var before := ParsePieces(pieces[..k]);
      r.Some? && |before| < |r.value| && r.value[|before|] == ParseInt(Strip(pieces[k])).value
  {
    var pieces := SplitOn(Strip(folderIds), ',');
    ParsePiecesAt(pieces, k);
  }

  /** A piece that is blank or not an integer contributes nothing. */
  lemma JunkPieceSkipped(a: seq<string>, junk: string, b: seq<string>)
    requires Strip(junk) == [] || ParseInt(Strip(junk)).None?
    ensures ParsePieces(a + [junk] + b) == ParsePieces(a) + ParsePieces(b)
  {
    ParsePiecesAppend(a + [junk], b);
    ParsePiecesAppend(a, [junk]);
  }

  function IdStrings(ids: seq<int>): (r: seq<string>)
    ensures |r| == |ids| && forall k :: 0 <= k < |ids| ==> r[k] == IntToString(ids[k])
  {
    seq(|ids|, k requires 0 <= k < |ids| => IntToString(ids[k]))
  }

  /** `str(i)` starts with a sign or a digit and ends with a digit. */
  lemma IntToStringEnds(i: int)
    ensures var s := IntToString(i); s != [] && !IsSpace(s[0]) && !IsSpace(s[|s| - 1])
  {
    var n: nat := if i < 0 then -i else i;
    var digits := NatToString(n);
    assert IsDigit(digits[0]) && IsDigit(digits[|digits| - 1]);
    if i < 0 {
      assert IntToString(i) == "-" + digits;
    }
  }

  /** `str(i)` as a piece gives `i`. */
  lemma PieceValueOfInt(i: int)
    ensures PieceValue(IntToString(i)) == [i]
  {
    IntToStringEnds(i);
    StripIdentity(IntToString(i));
    ParseIntToString(i);
  }

  lemma {:induction false} ParsePiecesOfIds(ids: seq<int>)
    ensures ParsePieces(IdStrings(ids)) == ids
  {
    if ids != [] {
      var pieces := IdStrings(ids);
      assert pieces[0] == IntToString(ids[0]);
      assert pieces[1..] == IdStrings(ids[1..]);
      PieceValueOfInt(ids[0]);
      ParsePiecesOfIds(ids[1..]);
      assert ParsePieces(pieces) == [ids[0]] + ids[1..];
    }
  }

  /** Writing folder ids comma-separated, as the search page does, and parsing them back
      gives the same ids in the same order. */
  lemma ParseFolderIdsRoundTrip(ids: seq<int>)
    requires ids != []
    ensures ParseFolderIds(Some(Join(IdStrings(ids), ","))) == Some(ids)
  {
    var parts := IdStrings(ids);
    var s := Join(parts, ",");
    forall p | p in parts ensures ',' !in p {
      var k :| 0 <= k < |parts| && parts[k] == p;
      IntToStringNoComma(ids[k]);
    }
    IntToStringEnds(ids[0]);
    IntToStringEnds(ids[|ids| - 1]);
    JoinFirst(parts, ",");
    JoinLast(parts, ",");
    StripIdentity(s);
    SplitOnJoin(parts, ',');
    ParsePiecesOfIds(ids);
  }

  /** The folder_id form field of the upload endpoints: None when missing, blank or not
      an integer, and its value otherwise. */
  function ParseFolderField(folderId: Option<string>): (r: Option<int>)
    ensures folderId.None? || Strip(folderId.value) == [] ==> r.None?
    ensures folderId.Some? && Strip(folderId.value) != [] ==> r == ParseInt(folderId.value)
  {
    if folderId.None? || Strip(folderId.value) == [] then None
    else ParseInt(folderId.value)
  }

  /** `str(i)` in the form field gives `i` back. */
  lemma ParseFolderFieldOfInt(i: int)
    ensures ParseFolderField(Some(IntToString(i))) == Some(i)
  {
    IntToStringEnds(i);
    ParseIntToString(i);
  }

  /** A form field that names one folder and a query string that names the same one
      agree: the list parser gives the one-element list. */
  lemma FolderFieldAgreesWithList(s: string)
    requires ParseFolderField(Some(s)).Some?
    ensures ParseFolderIds(Some(s)) == Some([ParseFolderField(Some(s)).value])
  {
    var t := Strip(s);
    StripFacts(s);
    StripIdentity(t);
    assert ParseInt(t) == ParseInt(s);
    assert ',' !in t by {
      forall k | 0 <= k < |t| ensures t[k] != ',' {
        if 0 < k && (t[0] == '-' || t[0] == '+') {
          assert t[k] == t[1..][k - 1];
        }
      }
    }
    SplitOnNoSep(t, ',');
    assert SplitOn(t, ',') == [t];
    assert t != [];
    assert ParseInt(t).Some?;
    assert ParsePieces([t]) == [ParseInt(t).value] + ParsePieces([]);
    assert ParsePieces(SplitOn(t, ',')) == [ParseInt(s).value];
  }

  // ---------------------------------------------------------------- search

  /** The search endpoints: a blank query answers an empty result list without searching;
      otherwise the stripped query and the parsed folder ids are searched. */
  function SearchRequest(q: string, folderIds: Option<string>): (r: Option<(string, Option<seq<int>>)>)
    ensures r.None? <==> forall k :: 0 <= k < |q| ==> IsSpace(q[k])
    ensures r.Some? ==> r.value.0 != [] && NoSpaceAtEnds(r.value.0) && r.value.1 == ParseFolderIds(folderIds)
  {
    StripFacts(q);
    if Strip(q) == [] then None else Some((Strip(q), ParseFolderIds(folderIds)))
  }

  // ---------------------------------------------------------------- enqueueing

  const DUPLICATE_WARNING := "Duplicate file already in queue"
  const PROCESSED_WARNING := "File was already processed previously"

  /** The advisory warnings: the duplicate one first, then the already-processed one, and
      None instead of an empty list. */
  function Warnings(duplicate: bool, processed: bool): (r: Option<seq<string>>)
    ensures r.None? <==> !duplicate && !processed
    ensures r.Some? ==> (r.value != [] && |r.value| <= 2 &&
      (DUPLICATE_WARNING in r.value <==> duplicate) && (PROCESSED_WARNING in r.value <==> processed) &&
      (duplicate ==> r.value[0] == DUPLICATE_WARNING))
  {
    var w := (if duplicate then [DUPLICATE_WARNING] else []) + (if processed then [PROCESSED_WARNING] else []);
    if w == [] then None else Some(w)
  }

  /** What an endpoint answers for one enqueued file. */
  datatype Accepted = Accepted(
    originalFilename: Option<string>,
    queueId: string,
    folderId: Option<int>,
    warnings: Option<seq<string>>)

  /** The warnings (when `check` is set), then `add_to_queue`: the item is enqueued
      whatever the warnings say, and nothing but the queue changes. */
  method EnqueueChecked(store: JobStore.Store, queueId: string, uploadPath: string, filename: string,
                        fileHash: string, folderId: Option<int>, check: bool)
    returns (warnings: Option<seq<string>>)
    requires store.Valid()
    requires forall k :: 0 <= k < |store.queue| ==> store.queue[k].queueId != queueId
    modifies store
    ensures store.Valid()
    ensures store.queue == old(store.queue) +
      [JobStore.QueueItem(queueId, uploadPath, filename, fileHash, folderId, JobStore.ItemPending, None)]
    ensures store.AllButQueue() == old(store.AllButQueue())
    ensures warnings ==
      if check then Warnings(old(store.IsDuplicateInQueue(fileHash)), old(store.IsAlreadyProcessed(fileHash)))
      else None
  {
    warnings := None;
    if check {
      var duplicate := store.IsDuplicateInQueue(fileHash);
      var processed := store.IsAlreadyProcessed(fileHash);
      warnings := Warnings(duplicate, processed);
    }
    var _ := store.AddToQueue(queueId, uploadPath, filename, fileHash, folderId);
  }

  /** Python's `s.lstrip('/')`. */
  function LStripSlashes(s: string): (r: string)
    ensures r == [] || r[0] != '/'
    ensures |r| <= |s| && r == s[|s| - |r|..]
  {
    if s != [] && s[0] == '/' then LStripSlashes(s[1..]) else s
  }

  /** The URI `enqueue_from_gcs` stores as the upload path. */
  function GcsUri(bucket: string, objectName: string): string {
    Storage.GCS_SCHEME + bucket + "/" + LStripSlashes(objectName)
  }

  /** The last character of `a + b`, for a non-empty `b`, is the last of `b`. */
  lemma LastOfAppend(a: string, b: string)
    requires b != []
    ensures (a + b)[|a + b| - 1] == b[|b| - 1]
  {
  }

  /** The stored URI has no surrounding white space, so stripping it changes nothing. */
  lemma GcsUriIsStripped(bucket: string, objectName: string)
    requires objectName == [] || !IsSpace(objectName[|objectName| - 1])
    ensures Strip(GcsUri(bucket, objectName)) == GcsUri(bucket, objectName)
  {
    var blob := LStripSlashes(objectName);
    var head := Storage.GCS_SCHEME + bucket + "/";
    var uri := GcsUri(bucket, objectName);
    assert uri == head + blob;
    assert uri[0] == 'g';
    if blob == [] {
      LastOfAppend(Storage.GCS_SCHEME + bucket, "/");
      assert uri == Storage.GCS_SCHEME + bucket + "/";
    } else {
      LastOfAppend(head, blob);
      assert blob[|blob| - 1] == objectName[|objectName| - 1];
    }
    StripIdentity(uri);
  }

  /** A stripped `gs://` URI of a bucket without slashes resolves to a download of the
      object it names. */
  lemma UriResolves(uri: string, bucket: string, blob: string)
    requires '/' !in bucket && uri == Storage.GCS_SCHEME + bucket + "/" + blob && Strip(uri) == uri
    ensures Storage.IsGcsRef(Storage.StrRef(uri))
    ensures Storage.GetUploadPath(Storage.StrRef(uri)) == Storage.Download(bucket, blob, Storage.TempSuffix(blob))
  {
    Storage.SplitGcsUriOfParts(bucket, blob);
  }

  /** The URI stored for an uploaded object is resolved, when the worker runs the job, to
      a download of that very object from that bucket. */
  lemma EnqueuedUriResolves(bucket: string, objectName: string)
    requires '/' !in bucket
    requires objectName == [] || !IsSpace(objectName[|objectName| - 1])
    ensures Storage.IsGcsRef(Storage.StrRef(GcsUri(bucket, objectName)))
    ensures Storage.GetUploadPath(Storage.StrRef(GcsUri(bucket, objectName))) ==
      Storage.Download(bucket, LStripSlashes(objectName), Storage.TempSuffix(LStripSlashes(objectName)))
  {
    GcsUriIsStripped(bucket, objectName);
    UriResolves(GcsUri(bucket, objectName), bucket, LStripSlashes(objectName));
  }

  /** `enqueue_from_gcs`: refused with 503 when no bucket is configured and with 400 for a
      bad extension (the size is not known here); otherwise the object's URI is enqueued,
      with warnings only when a hash was sent. */
  method EnqueueFromGcs(store: JobStore.Store, bucket: string, objectName: string, originalFilename: string,
                        folderId: Option<string>, fileHash: Option<string>, queueId: string)
    returns (r: Result<Accepted, Rejection>)
    requires store.Valid()
    requires forall k :: 0 <= k < |store.queue| ==> store.queue[k].queueId != queueId
    modifies store
    ensures store.Valid()
    ensures r.Err? <==> bucket == [] || ValidateFile(originalFilename, 0).Some?
    ensures bucket == [] ==> r == Err(NotConfigured)
    ensures bucket != [] && r.Err? ==> r == Err(BadFormat)
    ensures r.Err? ==> store.queue == old(store.queue)
    ensures store.AllButQueue() == old(store.AllButQueue())
    ensures r.Ok? ==>
      var hash := fileHash.GetOr("");
      && store.queue == old(store.queue) + [JobStore.QueueItem(queueId, GcsUri(bucket, objectName), originalFilename,
                                                  hash, ParseFolderField(folderId), JobStore.ItemPending, None)]
      && r.value == Accepted(Some(originalFilename), queueId, ParseFolderField(folderId),
                             if hash == [] then None
                             else Warnings(old(store.IsDuplicateInQueue(hash)), old(store.IsAlreadyProcessed(hash))))
  {
    if bucket == [] {
      return Err(NotConfigured);
    }
    var rejection := ValidateFile(originalFilename, 0);
    if rejection.Some? {
      return Err(rejection.value);
    }
    var fid := ParseFolderField(folderId);
    var hash := fileHash.GetOr("");
    var warnings := EnqueueChecked(store, queueId, GcsUri(bucket, objectName), originalFilename, hash, fid, hash != []);
    r := Ok(Accepted(Some(originalFilename), queueId, fid, warnings));
  }

  /** A file of an `upload` request: the name the client gave (if any), and what streaming
      it to disk produced: its size, its SHA-256 hash and where it was saved. */
  datatype UploadedFile = UploadedFile(filename: Option<string>, size: nat, fileHash: string, savedPath: string)

  /** `file.filename or "audio"`. */
  function UploadName(f: UploadedFile): string {
    match f.filename
    case Some(n) => if n == [] then "audio" else n
    case None => "audio"
  }

  /** Why `upload` refuses a file: too large (found while streaming) before a bad
      extension. */
  function FileRejection(f: UploadedFile): Option<Rejection> {
    if f.size > MAX_FILE_SIZE_BYTES then Some(TooLarge)
    else if Lower(Suffix(UploadName(f))) !in ALLOWED_EXTENSIONS then Some(BadFormat)
    else None
  }

  /** `upload` refuses the files `_validate_file` refuses and no others; only for a file
      both too large and of a bad format do the two name different reasons. */
  lemma FileRejectionAgrees(f: UploadedFile)
    ensures FileRejection(f).None? <==> ValidateFile(UploadName(f), f.size).None?
    ensures FileRejection(f).Some? && ValidateFile(UploadName(f), f.size) != FileRejection(f) ==>
      FileRejection(f) == Some(TooLarge) && ValidateFile(UploadName(f), f.size) == Some(BadFormat)
  {
  }

  /** The first file `upload` refuses, if any. */
  function FirstRejected(files: seq<UploadedFile>): Option<nat> {
    JobStore.FirstIndex(files, (f: UploadedFile) => FileRejection(f).Some?)
  }

  /** How many files `upload` enqueues: those before the first refused one. */
  function AcceptedCount(files: seq<UploadedFile>): (n: nat)
    ensures n <= |files|
  {
    match FirstRejected(files)
    case Some(k) => k
    case None => |files|
  }

  function QueuedItem(f: UploadedFile, queueId: string, folderId: Option<int>): JobStore.QueueItem {
    JobStore.QueueItem(queueId, f.savedPath, UploadName(f), f.fileHash, folderId, JobStore.ItemPending, None)
  }

  /** The queue items for the first `n` files. */
  function QueuedItems(files: seq<UploadedFile>, queueIds: seq<string>, n: nat, folderId: Option<int>)
    : (r: seq<JobStore.QueueItem>)
    requires n <= |files| && n <= |queueIds|
    ensures |r| == n && forall k :: 0 <= k < n ==> r[k] == QueuedItem(files[k], queueIds[k], folderId)
  {
    seq(n, k requires 0 <= k < n => QueuedItem(files[k], queueIds[k], folderId))
  }

  lemma QueuedItemsSnoc(files: seq<UploadedFile>, queueIds: seq<string>, i: nat, folderId: Option<int>)
    requires i < |files| && i < |queueIds|
    ensures QueuedItems(files, queueIds, i + 1, folderId) ==
      QueuedItems(files, queueIds, i, folderId) + [QueuedItem(files[i], queueIds[i], folderId)]
  {
  }

  /** An earlier file of the same request has the same hash. */
  predicate SeenBefore(files: seq<UploadedFile>, i: nat)
    requires i < |files|
  {
    exists j :: 0 <= j < i && files[j].fileHash == files[i].fileHash
  }

  predicate HasHash(q: seq<JobStore.QueueItem>, h: string) {
    exists k :: 0 <= k < |q| && q[k].fileHash == h
  }

  /** After the first `i` files are enqueued, a hash is in the queue exactly when it was
      there before or one of those files has it. */
  lemma QueuedHashes(q0: seq<JobStore.QueueItem>, files: seq<UploadedFile>, queueIds: seq<string>,
                     i: nat, folderId: Option<int>, h: string)
    requires i <= |files| && i <= |queueIds|
    ensures HasHash(q0 + QueuedItems(files, queueIds, i, folderId), h) <==>
      HasHash(q0, h) || exists j :: 0 <= j < i && files[j].fileHash == h
  {
    var q := q0 + QueuedItems(files, queueIds, i, folderId);
    if HasHash(q, h) && !HasHash(q0, h) {
      var k :| 0 <= k < |q| && q[k].fileHash == h;
      assert k >= |q0|;
      assert files[k - |q0|].fileHash == h;
    }
    if exists j :: 0 <= j < i && files[j].fileHash == h {
      var j :| 0 <= j < i && files[j].fileHash == h;
      assert q[|q0| + j].fileHash == h;
    }
    if HasHash(q0, h) {
      var k :| 0 <= k < |q0| && q0[k].fileHash == h;
      assert q[k].fileHash == h;
    }
  }

  /** The answers for a request whose files are all enqueued, given which of their hashes
      were duplicates and which were processed when the request arrived. */
  function Answers(files: seq<UploadedFile>, queueIds: seq<string>, folderId: Option<int>,
                   duplicate0: seq<bool>, processed0: set<string>): (r: seq<Accepted>)
    requires |queueIds| == |files| == |duplicate0|
    ensures |r| == |files| && forall i :: 0 <= i < |files| ==>
      r[i] == Accepted(files[i].filename, queueIds[i], folderId,
        Warnings(duplicate0[i] || SeenBefore(files, i), files[i].fileHash in processed0))
  {
    seq(|files|, i requires 0 <= i < |files| =>
      Accepted(files[i].filename, queueIds[i], folderId,
        Warnings(duplicate0[i] || SeenBefore(files, i), files[i].fileHash in processed0)))
  }

  /** The first refused file is the first one that fails its check. */
  lemma FirstRejectedAt(files: seq<UploadedFile>, i: nat)
    requires i <= |files| && forall j :: 0 <= j < i ==> FileRejection(files[j]).None?
    requires i < |files| ==> FileRejection(files[i]).Some?
    ensures FirstRejected(files) == if i < |files| then Some(i) else None
    ensures AcceptedCount(files) == i
  {
    JobStore.FirstIndexAt(files, (f: UploadedFile) => FileRejection(f).Some?, i);
  }

  /** Enqueueing the files before `i` leaves no item with the id of file `i`. */
  lemma IdFreshAfterQueued(q0: seq<JobStore.QueueItem>, files: seq<UploadedFile>, queueIds: seq<string>,
                           i: nat, folderId: Option<int>)
    requires i < |files| && |queueIds| == |files|
    requires forall a, b :: 0 <= a < b < |queueIds| ==> queueIds[a] != queueIds[b]
    requires forall k :: 0 <= k < |q0| ==> q0[k].queueId != queueIds[i]
    ensures var q := q0 + QueuedItems(files, queueIds, i, folderId);
      forall k :: 0 <= k < |q| ==> q[k].queueId != queueIds[i]
  {
    var q := q0 + QueuedItems(files, queueIds, i, folderId);
    forall k | |q0| <= k < |q| ensures q[k].queueId != queueIds[i] {
      assert q[k] == QueuedItem(files[k - |q0|], queueIds[k - |q0|], folderId);
    }
  }

  predicate DistinctIds(queueIds: seq<string>) {
    forall i, j :: 0 <= i < j < |queueIds| ==> queueIds[i] != queueIds[j]
  }

  /** No queued item has any of the ids. */
  predicate IdsFresh(queueIds: seq<string>, q: seq<JobStore.QueueItem>) {
    forall i, k :: 0 <= i < |queueIds| && 0 <= k < |q| ==> q[k].queueId != queueIds[i]
  }

  /** `duplicate0` flags the files whose hash the current job or a queued item carries. */
  predicate DuplicatesAgree(duplicate0: seq<bool>, files: seq<UploadedFile>,
                            jobs: map<string, JobState.PipelineState>, current: Option<string>,
                            q: seq<JobStore.QueueItem>) {
    |duplicate0| == |files| &&
    forall j :: 0 <= j < |files| ==>
      (duplicate0[j] <==> RunningHasHash(jobs, current, files[j].fileHash) || HasHash(q, files[j].fileHash))
  }

  /** The current job's record carries the hash: the half of the duplicate check that
      enqueueing leaves alone. */
  predicate RunningHasHash(jobs: map<string, JobState.PipelineState>, current: Option<string>, h: string) {
    current.Some? && current.value != [] && current.value in jobs && jobs[current.value].fileHash == Some(h)
  }

  /** One file of `upload` that passed its check: it is enqueued, and its answer is the
      one the request owes it. */
  method UploadOne(store: JobStore.Store, files: seq<UploadedFile>, queueIds: seq<string>, n: nat,
                   fid: Option<int>, ghost queue0: seq<JobStore.QueueItem>, ghost duplicate0: seq<bool>,
                   ghost answers: seq<Accepted>)
    returns (a: Accepted)
    requires store.Valid()
    requires n < |files| && |queueIds| == |files| == |duplicate0|
    requires DistinctIds(queueIds) && IdsFresh(queueIds, queue0)
    requires store.queue == queue0 + QueuedItems(files, queueIds, n, fid)
    requires DuplicatesAgree(duplicate0, files, store.jobs, store.currentJobId, queue0)
    requires answers == Answers(files, queueIds, fid, duplicate0, store.processedHashes)
    modifies store
    ensures store.Valid()
    ensures store.queue == queue0 + QueuedItems(files, queueIds, n + 1, fid)
    ensures store.AllButQueue() == old(store.AllButQueue())
    ensures a == answers[n]
  {
    var f := files[n];
    assert duplicate0[n] ==
      (RunningHasHash(store.jobs, store.currentJobId, f.fileHash) || HasHash(queue0, f.fileHash));
    IdFreshAfterQueued(queue0, files, queueIds, n, fid);
    QueuedHashes(queue0, files, queueIds, n, fid, f.fileHash);
    assert store.IsDuplicateInQueue(f.fileHash) == (duplicate0[n] || SeenBefore(files, n));
    var warnings := EnqueueChecked(store, queueIds[n], f.savedPath, UploadName(f), f.fileHash, fid, true);
    QueuedItemsSnoc(files, queueIds, n, fid);
    a := Accepted(f.filename, queueIds[n], fid, warnings);
  }

  /** The loop of `upload`: the files are enqueued in order up to the first refused one;
      the answers are those of the enqueued files. */
  method EnqueueUntilRejected(store: JobStore.Store, files: seq<UploadedFile>, queueIds: seq<string>,
                              fid: Option<int>, ghost duplicate0: seq<bool>)
    returns (results: seq<Accepted>, n: nat)
    requires store.Valid()
    requires |queueIds| == |files| == |duplicate0|
    requires DistinctIds(queueIds) && IdsFresh(queueIds, store.queue)
    requires DuplicatesAgree(duplicate0, files, store.jobs, store.currentJobId, store.queue)
    modifies store
    ensures store.Valid()
    ensures n == AcceptedCount(files) && FirstRejected(files) == if n < |files| then Some(n) else None
    ensures store.queue == old(store.queue) + QueuedItems(files, queueIds, n, fid)
    ensures store.AllButQueue() == old(store.AllButQueue())
    ensures results == Answers(files, queueIds, fid, duplicate0, old(store.processedHashes))[..n]
  {
    ghost var queue0 := store.queue;
    ghost var jobs0 := store.jobs;
    ghost var current0 := store.currentJobId;
    ghost var answers := Answers(files, queueIds, fid, duplicate0, store.processedHashes);
    results := [];
    n := 0;
    while n < |files| && FileRejection(files[n]).None?
      invariant 0 <= n <= |files|
      invariant store.Valid()
      invariant forall j :: 0 <= j < n ==> FileRejection(files[j]).None?
      invariant store.queue == queue0 + QueuedItems(files, queueIds, n, fid)
      invariant store.AllButQueue() == old(store.AllButQueue())
      invariant store.jobs == jobs0 && store.currentJobId == current0
      invariant results == answers[..n]
    {
      var a := UploadOne(store, files, queueIds, n, fid, queue0, duplicate0, answers);
      PrefixSnoc(answers, n);
      results := results + [a];
      n := n + 1;
    }
    FirstRejectedAt(files, n);
  }

  /** `upload`: no files is refused; otherwise the files are taken in order, each refused
      file ends the request with its refusal (the ones before it stay enqueued), and every
      other file is enqueued with its warnings. A file is flagged as a duplicate when its
      hash was already queued or an earlier file of the same request has it. */
  method Upload(store: JobStore.Store, files: seq<UploadedFile>, folderId: Option<string>, queueIds: seq<string>)
    returns (r: Result<seq<Accepted>, Rejection>)
    requires store.Valid()
    requires |queueIds| == |files|
    requires DistinctIds(queueIds) && IdsFresh(queueIds, store.queue)
    modifies store
    ensures store.Valid()
    ensures r.Err? <==> files == [] || FirstRejected(files).Some?
    ensures files == [] ==> r == Err(NoFiles)
    ensures files != [] && FirstRejected(files).Some? ==>
      r == Err(FileRejection(files[FirstRejected(files).value]).value)
    ensures store.queue ==
      old(store.queue) + QueuedItems(files, queueIds, AcceptedCount(files), ParseFolderField(folderId))
    ensures store.AllButQueue() == old(store.AllButQueue())
    ensures r.Ok? ==> |r.value| == |files| && forall i :: 0 <= i < |files| ==>
      r.value[i] == Accepted(files[i].filename, queueIds[i], ParseFolderField(folderId),
        Warnings(old(store.IsDuplicateInQueue(files[i].fileHash)) || SeenBefore(files, i),
                 old(store.IsAlreadyProcessed(files[i].fileHash))))
  {
    if files == [] {
      return Err(NoFiles);
    }
    var fid := ParseFolderField(folderId);
    ghost var duplicate0 := seq(|files|, j requires 0 <= j < |files| reads store =>
      store.IsDuplicateInQueue(files[j].fileHash));
    ghost var answers := Answers(files, queueIds, fid, duplicate0, store.processedHashes);
    var results, n := EnqueueUntilRejected(store, files, queueIds, fid, duplicate0);
    if n < |files| {
      return Err(FileRejection(files[n]).value);
    }
    assert results == answers;
    forall i | 0 <= i < |files|
      ensures duplicate0[i] == old(store.IsDuplicateInQueue(files[i].fileHash))
      ensures (files[i].fileHash in old(store.processedHashes)) == old(store.IsAlreadyProcessed(files[i].fileHash))
    {
    }
    r := Ok(results);
  }
}
