/** The browser-side upload client of the single-page application
    (`src/lib/upload.ts`): unique object names, the upload loop over a batch,
    the response it reports, and the editor's upload handler. The clock, the
    random suffix and the outcome of each `PUT` are parameters. */
module SpaUpload {
  import opened Wrappers
  import opened Types
  import opened JsText
  import opened UploadBatch

  const NotConfigured: string := "MinIO not configured. Please set VITE_MINIO_* environment variables."
  const AllFailed: string := "All files failed to upload"
  const SomeFailed: string := "Some files failed to upload"
  const Succeeded: string := "Upload successful"
  const HandlerFailure: string := "Upload failed"

  /** The four `VITE_MINIO_*` variables; an unset variable is the empty string. */
  datatype Config = Config(endpoint: string, accessKey: string, secretKey: string, bucket: string)

  /** All four variables are set (a missing or empty one is falsy). */
  predicate Configured(config: Config) {
    config.endpoint != "" && config.accessKey != "" && config.secretKey != "" && config.bucket != ""
  }

  /** What one `PUT` does: the clock reading and random suffix used to name
      the object, and whether the response was `ok`; or the request throws. */
  datatype PutAttempt = Put(timestamp: nat, random: string, ok: bool) | Threw

  /** The index of the last '.' in `s`, if any. */
  function LastDot(s: string): (r: Option<nat>)
    ensures r.None? <==> '.' !in s
    ensures r.Some? ==> r.value < |s| && s[r.value] == '.' && '.' !in s[r.value + 1..]
  {
    if s == [] then None
    else if s[|s| - 1] == '.' then Some(|s| - 1)
    else
      var r := LastDot(s[..|s| - 1]);
      assert s == s[..|s| - 1] + [s[|s| - 1]];
      if r.Some? then
        assert s[r.value + 1..] == s[..|s| - 1][r.value + 1..] + [s[|s| - 1]];
        r
      else r
  }

  /** A '.' with no '.' after it is the last one. */
  lemma {:induction false} LastDotAt(s: string, j: nat)
    requires j < |s| && s[j] == '.' && '.' !in s[j + 1..]
    ensures LastDot(s) == Some(j)
  {
    var n := |s| - 1;
    if j < n {
      assert s[n] in s[j + 1..];
      assert s[..n][j + 1..] == s[j + 1..n];
      LastDotAt(s[..n], j);
    }
  }

  /** `split('.').pop()`: the text after the last '.', or the whole name
      when there is none. */
  function Extension(name: string): (r: string)
    ensures '.' !in name ==> r == name
    ensures '.' in name ==>
      && |r| < |name| && name[|name| - |r| - 1] == '.'
      && r == name[|name| - |r|..] && '.' !in r
  {
    match LastDot(name)
    case None => name
    case Some(i) => name[i + 1..]
  }

  /** Whether `/\.[^/.]+$/` matches: the name ends in a '.' followed by at
      least one character, none of them '/' or '.'. */
  predicate HasStrippableExtension(name: string) {
    LastDot(name).Some? && LastDot(name).value + 1 < |name| && '/' !in name[LastDot(name).value + 1..]
  }

  /** `replace(/\.[^/.]+$/, '')`: the name without that suffix, when there is one. */
  function BaseName(name: string): (r: string)
    ensures r <= name
    ensures HasStrippableExtension(name) ==>
      && |r| < |name| && name[|r|] == '.'
      && name[|r| + 1..] != [] && '.' !in name[|r| + 1..] && '/' !in name[|r| + 1..]
    ensures !HasStrippableExtension(name) ==> r == name
  {
    if HasStrippableExtension(name) then name[..LastDot(name).value] else name
  }

  /** `generateUniqueFilename`. */
  function UniqueFilename(name: string, timestamp: nat, random: string): string {
    BaseName(name) + "-" + Decimal(timestamp) + "-" + random + "." + Extension(name)
  }

  /** The name is put back together from the base name and the extension
      exactly when the regular expression strips something. */
  lemma BaseExtensionSplit(name: string)
    ensures HasStrippableExtension(name) ==> BaseName(name) + "." + Extension(name) == name
    ensures HasStrippableExtension(name) ==> Extension(name) != "" && '.' !in Extension(name) && '/' !in Extension(name)
  {
    if HasStrippableExtension(name) {
      var i := LastDot(name).value;
      assert name == name[..i] + "." + name[i + 1..];
    }
  }

  /** A name `b.e` with a plain extension keeps both parts around the stamp. */
  lemma UniqueFilenameWithExtension(b: string, e: string, timestamp: nat, random: string)
    requires e != [] && '.' !in e && '/' !in e
    ensures UniqueFilename(b + "." + e, timestamp, random) == b + "-" + Decimal(timestamp) + "-" + random + "." + e
  {
    var name := b + "." + e;
    assert name[|b|] == '.' && name[|b| + 1..] == e && name[..|b|] == b;
    LastDotAt(name, |b|);
  }

  /** A name without a dot is used whole as its own extension, so `photo`
      becomes `photo-<timestamp>-<random>.photo`. */
  lemma UniqueFilenameWithoutDot(name: string, timestamp: nat, random: string)
    requires '.' !in name
    ensures UniqueFilename(name, timestamp, random) == name + "-" + Decimal(timestamp) + "-" + random + "." + name
  {
  }

  /** The object key of a file stored under its unique name. */
  function ObjectKey(name: string, timestamp: nat, random: string): (r: string)
    ensures StartsWith(r, "uploads/")
    ensures r[8..] == UniqueFilename(name, timestamp, random)
  {
    "uploads/" + UniqueFilename(name, timestamp, random)
  }

  /** The URL the file is sent to with `PUT`, which is also the public URL
      reported for it. */
  function ObjectUrl(config: Config, key: string): string {
    config.endpoint + "/" + config.bucket + "/" + key
  }

  /** The URL recorded for one file: `Some` exactly when the `PUT` was
      answered with an `ok` response. */
  function PutUrl(config: Config, f: FileMeta, attempt: PutAttempt): (r: Option<string>)
    ensures r.Some? <==> attempt.Put? && attempt.ok
    ensures r.Some? ==> r.value == ObjectUrl(config, ObjectKey(f.name, attempt.timestamp, attempt.random))
  {
    match attempt
    case Put(timestamp, random, ok) =>
      if ok then Some(ObjectUrl(config, ObjectKey(f.name, timestamp, random))) else None
    case Threw => None
  }

  /** What each file's upload records, in order. */
  function PutUrls(config: Config, files: seq<FileMeta>, attempts: seq<PutAttempt>): (r: seq<Option<string>>)
    requires |attempts| == |files|
    ensures |r| == |files|
  {
    if files == [] then []
    else [PutUrl(config, files[0], attempts[0])] + PutUrls(config, files[1..], attempts[1..])
  }

  lemma {:induction false} PutUrlsAt(config: Config, files: seq<FileMeta>, attempts: seq<PutAttempt>, i: nat)
    requires |attempts| == |files| && i < |files|
    ensures PutUrls(config, files, attempts)[i] == PutUrl(config, files[i], attempts[i])
  {
    if i > 0 {
      PutUrlsAt(config, files[1..], attempts[1..], i - 1);
    }
  }

  /** The report after the loop, from the failures and the name-to-URL record. */
  function Report(errFiles: seq<string>, succMap: map<string, string>): (r: UploadResponse)
    ensures r.code == 1 <==> errFiles != [] && succMap == map[]
    ensures r.code == 1 ==> r == UploadResponse(AllFailed, 1, Some(errFiles), None)
    ensures r.code != 1 ==> r.code == 0 && r.succMap == Some(succMap) && r.errFiles == Some(errFiles)
    ensures r.msg == Succeeded <==> errFiles == []
    ensures r.msg == SomeFailed <==> errFiles != [] && succMap != map[]
  {
    if |errFiles| > 0 && |succMap.Keys| == 0 then UploadResponse(AllFailed, 1, Some(errFiles), None)
    else UploadResponse(if |errFiles| > 0 then SomeFailed else Succeeded, 0, Some(errFiles), Some(succMap))
  }

  /** What `uploadToMinio` reports for a batch. */
  function UploadResult(config: Config, files: seq<FileMeta>, attempts: seq<PutAttempt>): UploadResponse
    requires |attempts| == |files|
  {
    if !Configured(config) then UploadResponse(NotConfigured, 1, Some(Names(files)), None)
    else
      var urls := PutUrls(config, files, attempts);
      Report(FailedNames(files, urls), SuccessMap(files, urls))
  }

  /** The body of the loop's `try` for one file: builds its unique key and
      URL and sends the `PUT`; a thrown error or a response that is not `ok`
      records nothing. */
  method PutFile(config: Config, file: FileMeta, attempt: PutAttempt) returns (url: Option<string>)
    ensures url == PutUrl(config, file, attempt)
  {
    match attempt {
      case Threw =>
        return None;
      case Put(timestamp, random, ok) =>
        var uniqueFilename := UniqueFilename(file.name, timestamp, random);
        var objectKey := "uploads/" + uniqueFilename;
        var objectUrl := config.endpoint + "/" + config.bucket + "/" + objectKey;
        if !ok {
          return None;
        }
        return Some(objectUrl);
    }
  }

  /** `uploadToMinio`: refuses outright without the four settings, otherwise
      tries every file once, in order. `attempts[i]` is what the `PUT` of
      file `i` does. */
  method UploadToMinio(config: Config, files: seq<FileMeta>, attempts: seq<PutAttempt>)
    returns (response: UploadResponse)
    requires |attempts| == |files|
    ensures response == UploadResult(config, files, attempts)
  {
    if config.endpoint == "" || config.accessKey == "" || config.secretKey == "" || config.bucket == "" {
      return UploadResponse(NotConfigured, 1, Some(Names(files)), None);
    }
    ghost var urls := PutUrls(config, files, attempts);
    var succMap: map<string, string> := map[];
    var errFiles: seq<string> := [];
    var i := 0;
    while i < |files|
      invariant 0 <= i <= |files|
      invariant succMap == SuccessMap(files[..i], urls[..i])
      invariant errFiles == FailedNames(files[..i], urls[..i])
    {
      BatchStep(files, urls, i);
      PutUrlsAt(config, files, attempts, i);
      var file := files[i];
      var url := PutFile(config, file, attempts[i]);
      if url.None? {
        errFiles := errFiles + [file.name];
      } else {
        succMap := SetEntry(succMap, file.name, url.value);
      }
      i := i + 1;
    }
    assert files[..i] == files && urls[..i] == urls;
    if |errFiles| > 0 && |succMap.Keys| == 0 {
      return UploadResponse(AllFailed, 1, Some(errFiles), None);
    }
    return UploadResponse(if |errFiles| > 0 then SomeFailed else Succeeded, 0, Some(errFiles), Some(succMap));
  }

  /** Without the settings nothing is uploaded and every file is reported
      failed, in order. */
  lemma NotConfiguredReport(config: Config, files: seq<FileMeta>, attempts: seq<PutAttempt>)
    requires |attempts| == |files| && !Configured(config)
    ensures UploadResult(config, files, attempts).code == 1
    ensures UploadResult(config, files, attempts).msg == NotConfigured
    ensures UploadResult(config, files, attempts).succMap.None?
    ensures UploadResult(config, files, attempts).errFiles.Some?
    ensures |UploadResult(config, files, attempts).errFiles.value| == |files|
    ensures forall i :: 0 <= i < |files| ==> UploadResult(config, files, attempts).errFiles.value[i] == files[i].name
  {
  }

  /** With the settings present, code 1 means some upload failed and none
      made it into the record (a success under the name `__proto__` does
      not); success is reported exactly when every upload did. */
  lemma UploadVerdict(config: Config, files: seq<FileMeta>, attempts: seq<PutAttempt>)
    requires |attempts| == |files| && Configured(config)
    ensures UploadResult(config, files, attempts).code == 1 <==>
      SuccessCount(PutUrls(config, files, attempts)) < |files| && RecordedCount(files, PutUrls(config, files, attempts)) == 0
    ensures UploadResult(config, files, attempts).msg == Succeeded <==>
      SuccessCount(PutUrls(config, files, attempts)) == |files|
  {
    var urls := PutUrls(config, files, attempts);
    UploadCount(files, urls);
    UploadAllOrNothing(files, urls);
  }

  /** The editor's upload handler: a failure with the reported message (or
      a fixed one when it is empty) unless the code is 0. */
  function HandleUpload(response: UploadResponse): (r: Result<UploadResponse, string>)
    ensures r.Success? <==> response.code == 0
    ensures r.Success? ==> r.value == response
    ensures r.Failure? ==> r.error != ""
    ensures r.Failure? && response.msg != "" ==> r.error == response.msg
  {
    if response.code != 0 then Failure(if response.msg != "" then response.msg else HandlerFailure)
    else Success(response)
  }

  /** The handler hands the editor a response exactly when the settings are
      present and either every upload succeeded or some success made it into
      the record; otherwise it fails with the report's own message. */
  lemma HandlerVerdict(config: Config, files: seq<FileMeta>, attempts: seq<PutAttempt>)
    requires |attempts| == |files|
    ensures HandleUpload(UploadResult(config, files, attempts)).Success? <==>
      && Configured(config)
      && (SuccessCount(PutUrls(config, files, attempts)) == |files| || RecordedCount(files, PutUrls(config, files, attempts)) > 0)
    ensures !Configured(config) ==> HandleUpload(UploadResult(config, files, attempts)) == Failure(NotConfigured)
  {
    if Configured(config) {
      UploadVerdict(config, files, attempts);
    }
  }

  /** A batch whose only successful upload is a file named `__proto__` is
      reported as a total failure: the record never receives that key, so it
      is empty, and the report says every file failed. */
  lemma ProtoOnlySuccess(config: Config, failed: FileMeta, proto: FileMeta, t: nat, random: string)
    requires Configured(config) && proto.name == ProtoKey
    ensures UploadResult(config, [failed, proto], [Threw, Put(t, random, true)])
      == UploadResponse(AllFailed, 1, Some([failed.name]), None)
  {
    var files, attempts := [failed, proto], [Threw, Put(t, random, true)];
    var urls := PutUrls(config, files, attempts);
    PutUrlsAt(config, files, attempts, 0);
    PutUrlsAt(config, files, attempts, 1);
    assert urls[1].Some?;
    assert files[..1] == [failed] && urls[..1] == [None];
    var none: seq<Option<string>> := [None];
    assert [failed][..0] == [] && none[..0] == [];
    assert FailedNames(files, urls) == FailedNames([failed], none) == [failed.name];
    assert SuccessMap(files, urls) == SetEntry(SuccessMap([failed], none), ProtoKey, urls[1].value);
    assert SuccessMap(files, urls) == map[];
    assert Report([failed.name], map[]).code == 1;
  }
}
