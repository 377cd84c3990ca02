/**
  * Resolving an upload reference: a local path is used as it is, a `gs://bucket/object`
  * URI names an object to download into a temporary file, and only such temporary files
  * are deleted after a run. The Cloud Storage client, the download and the deletion
  * themselves are not modelled: the functions here say what would be fetched or deleted.
  */
module Storage {
  import opened Wrappers
  import opened Text
  import opened Paths

  const GCS_SCHEME := "gs://"
  /** The prefix `tempfile.mkstemp` is given for downloaded objects. */
  const TEMP_PREFIX := "gcs_upload_"
  /** The temp-file suffix for an object name without one. */
  const DEFAULT_TEMP_SUFFIX := ".bin"

  /** An upload reference: a `pathlib.Path`, or a string that is a local path or a URI. */
  datatype Ref = PathRef(path: string) | StrRef(s: string)

  /** What resolving a reference leads to. */
  datatype Resolved =
    | Local(path: string)
    | Download(bucket: string, blob: string, tempSuffix: string)
    | InvalidUri(uri: string)

  /** `_is_gcs_ref`: a string that begins with `gs://`; a Path never is one. */
  function IsGcsRef(ref: Ref): (r: bool)
    ensures r ==> ref.StrRef?
    ensures r <==> ref.StrRef? && |ref.s| >= |GCS_SCHEME| && ref.s[..|GCS_SCHEME|] == GCS_SCHEME
  {
    ref.StrRef? && StartsWith(ref.s, GCS_SCHEME)
  }

  /** The bucket/blob split as written: every `gs://` is deleted from the URI, then the
      rest is cut at its first slash; anything but two pieces is an invalid URI. */
  function SplitGcsUriAsWritten(s: string): Option<(string, string)> {
    var parts := SplitOnce(Replace(s, GCS_SCHEME, ""), '/');
    if |parts| != 2 then None else Some((parts[0], parts[1]))
  }

  /** The bucket/blob split of a `gs://` URI: the scheme is taken off the front only, and
      the rest is cut at its first slash into the bucket and the object name. */
  function SplitGcsUri(s: string): (r: Option<(string, string)>)
    ensures r.Some? <==> StartsWith(s, GCS_SCHEME) && '/' in s[|GCS_SCHEME|..]
    ensures r.Some? ==> '/' !in r.value.0 && s == GCS_SCHEME + r.value.0 + "/" + r.value.1
  {
    if !StartsWith(s, GCS_SCHEME) then None
    else
      var parts := SplitOnce(s[|GCS_SCHEME|..], '/');
      if |parts| != 2 then None
      else
        assert s == s[..|GCS_SCHEME|] + s[|GCS_SCHEME|..];
        Some((parts[0], parts[1]))
  }

  /** Cutting `p + "/" + t` at its first slash, where `p` has none, gives `p` and `t`. */
  lemma SplitOnceAt(p: string, t: string)
    requires '/' !in p
    ensures SplitOnce(p + "/" + t, '/') == [p, t]
  {
    var s := p + "/" + t;
    assert s[|p|] == '/';
    var r := SplitOnce(s, '/');
    assert |r[0]| == |p|;
    assert r[0] == s[..|p|] == p;
    assert r[1] == s[|p| + 1..] == t;
  }

  /** Putting a URI together from a bucket without slashes and any object name, and
      splitting it again, gives the two back. */
  lemma SplitGcsUriOfParts(bucket: string, blob: string)
    requires '/' !in bucket
    ensures SplitGcsUri(GCS_SCHEME + bucket + "/" + blob) == Some((bucket, blob))
  {
    var s := GCS_SCHEME + bucket + "/" + blob;
    assert s[..|GCS_SCHEME|] == GCS_SCHEME;
    assert s[|GCS_SCHEME|..] == bucket + "/" + blob;
    SplitOnceAt(bucket, blob);
  }

  /** As written, the split agrees with taking the scheme off the front as long as the
      rest of the URI does not contain `gs://` again. */
  lemma SplitAsWrittenAgrees(rest: string)
    requires !Contains(rest, GCS_SCHEME)
    ensures SplitGcsUriAsWritten(GCS_SCHEME + rest) == SplitGcsUri(GCS_SCHEME + rest)
  {
    var s := GCS_SCHEME + rest;
    assert s[..|GCS_SCHEME|] == GCS_SCHEME && s[|GCS_SCHEME|..] == rest;
    ReplaceAbsent(rest, GCS_SCHEME, "");
    assert Replace(s, GCS_SCHEME, "") == rest;
  }

  lemma ReplaceInnerScheme()
    ensures Replace("/gs://c", GCS_SCHEME, "") == "/c"
  {
    assert Replace("c", GCS_SCHEME, "") == "c";
    assert Replace("gs://c", GCS_SCHEME, "") == "c";
  }

  lemma ReplaceBothSchemes()
    ensures Replace("gs://b/gs://c", GCS_SCHEME, "") == "b/c"
  {
    ReplaceInnerScheme();
    assert Replace("b/gs://c", GCS_SCHEME, "") == "b/c";
  }

  /** As written, an object name that contains `gs://` loses it: the URI
      `gs://b/gs://c` names the object `gs://c` in bucket `b`, but the split answers `c`. */
  lemma SplitAsWrittenAltersObjectName()
    ensures SplitGcsUri("gs://b/gs://c") == Some(("b", "gs://c"))
    ensures SplitGcsUriAsWritten("gs://b/gs://c") == Some(("b", "c"))
  {
    assert "gs://b/gs://c" == GCS_SCHEME + "b" + "/" + "gs://c";
    SplitGcsUriOfParts("b", "gs://c");
    ReplaceBothSchemes();
    assert "b/c" == "b" + "/" + "c";
    SplitOnceAt("b", "c");
  }

  /** The suffix of the temporary file an object is downloaded into: the object name's
      own suffix, or `.bin`. */
  function TempSuffix(blob: string): (r: string)
    ensures 2 <= |r| && r[0] == '.' && '.' !in r[1..] && '/' !in r
    ensures Suffix(blob) != [] ==> r == Suffix(blob)
  {
    var suffix := Suffix(blob);
    if suffix == [] then DEFAULT_TEMP_SUFFIX else suffix
  }

  /** `get_upload_path`, without the download: a Path is used unchanged; a string is
      stripped and, when it is not a `gs://` URI, used as a local path; a `gs://` URI is
      split into the object to fetch, or is invalid when it has no slash after the bucket. */
  function GetUploadPath(ref: Ref): (r: Resolved)
    ensures ref.PathRef? ==> r == Local(ref.path)
    ensures ref.StrRef? && !StartsWith(Strip(ref.s), GCS_SCHEME) ==> r == Local(Strip(ref.s))
    ensures r.Download? ==> ref.StrRef? && Strip(ref.s) == GCS_SCHEME + r.bucket + "/" + r.blob
    ensures r.Download? ==> '/' !in r.bucket && r.tempSuffix == TempSuffix(r.blob)
    ensures r.InvalidUri? <==> ref.StrRef? && IsGcsRef(StrRef(Strip(ref.s))) && SplitGcsUri(Strip(ref.s)).None?
  {
    match ref
    case PathRef(p) => Local(p)
    case StrRef(x) =>
      var s := Strip(x);
      if !IsGcsRef(StrRef(s)) then Local(s)
      else
        match SplitGcsUri(s)
        case None => InvalidUri(s)
        case Some((bucket, blob)) => Download(bucket, blob, TempSuffix(blob))
  }

  /** `upload_local_file`, without the upload: the stripped URI must start with `gs://`
      and hold a slash after the bucket; the answer is the bucket and the object name. */
  function UploadTarget(gcsUri: string): (r: Option<(string, string)>)
    ensures !StartsWith(Strip(gcsUri), GCS_SCHEME) ==> r.None?
    ensures r.Some? ==> Strip(gcsUri) == GCS_SCHEME + r.value.0 + "/" + r.value.1
  {
    SplitGcsUri(Strip(gcsUri))
  }

  /** The name `tempfile.mkstemp` gives the file it creates: prefix, random part, suffix. */
  function TempFileName(random: string, suffix: string): string {
    TEMP_PREFIX + random + suffix
  }

  /** `delete_local_if_temp`'s guard: only after a `gs://` run, and only a file whose
      name contains `gcs_upload_`. */
  function ShouldDelete(path: string, wasGcs: bool, isFile: bool): (r: bool)
    ensures r ==> wasGcs && isFile
    ensures r ==> Contains(Name(path), TEMP_PREFIX)
  {
    wasGcs && isFile && Contains(Name(path), TEMP_PREFIX)
  }

  lemma TempPrefixHasNoSlash()
    ensures '/' !in TEMP_PREFIX && TEMP_PREFIX != []
  {
  }

  /** The temporary file a download is written to is the one deleted afterwards. */
  lemma TempFileIsDeleted(dir: string, random: string, blob: string)
    requires '/' !in random
    ensures ShouldDelete(dir + "/" + TempFileName(random, TempSuffix(blob)), true, true)
  {
    var suffix := TempSuffix(blob);
    var n := TempFileName(random, suffix);
    TempPrefixHasNoSlash();
    assert '/' !in n;
    NameOfChild(dir, n);
    assert n[0..|TEMP_PREFIX|] == TEMP_PREFIX;
    ContainsAt(n, TEMP_PREFIX, 0);
  }

  /** A file whose name lacks the prefix, such as an upload kept in the upload
      directory, is never deleted, whatever the run. */
  lemma UploadedFileIsKept(dir: string, n: string, wasGcs: bool, isFile: bool)
    requires n != [] && n != "." && '/' !in n && !Contains(n, TEMP_PREFIX)
    ensures !ShouldDelete(dir + "/" + n, wasGcs, isFile)
  {
    NameOfChild(dir, n);
  }
}
