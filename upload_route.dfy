/** `POST /api/upload` of the server-rendered application
    (`app/api/upload/route.ts`): checks the batch size, screens each file by
    size and type, uploads the rest, and reports. What reading the form data
    yields and what each upload attempt does are parameters. */
module UploadRoute {
  import opened Wrappers
  import opened Types
  import opened JsText
  import opened Validations
  import opened Minio
  import opened UploadBatch

  datatype Reply = Reply(status: int, body: UploadResponse)

  /** The names of the files the screening turns away, in input order. */
  function Rejected(files: seq<FileMeta>): (r: seq<string>)
    ensures |r| <= |files|
  {
    if files == [] then []
    else
      var n := |files| - 1;
      Rejected(files[..n]) + (if FileRule(files[n]) then [] else [files[n].name])
  }

  /** The files the screening lets through, in input order. */
  function Accepted(files: seq<FileMeta>): (r: seq<FileMeta>)
    ensures |r| <= |files|
    ensures forall f :: f in r ==> f in files && FileRule(f)
  {
    if files == [] then []
    else
      var n := |files| - 1;
      Accepted(files[..n]) + (if FileRule(files[n]) then [files[n]] else [])
  }

  /** The upload attempts of the files let through, aligned with them. */
  function AcceptedAttempts(files: seq<FileMeta>, attempts: seq<Attempt>): (r: seq<Attempt>)
    requires |attempts| == |files|
    ensures |r| == |Accepted(files)|
  {
    if files == [] then []
    else
      var n := |files| - 1;
      AcceptedAttempts(files[..n], attempts[..n]) + (if FileRule(files[n]) then [attempts[n]] else [])
  }

  /** The reply to a batch of one to ten files. */
  function Summary(config: Config, files: seq<FileMeta>, attempts: seq<Attempt>): UploadResponse
    requires |attempts| == |files|
  {
    var valid := Accepted(files);
    var validAttempts := AcceptedAttempts(files, attempts);
    var urls := Urls(config, valid, validAttempts);
    var allErr := Rejected(files) + FailedNames(valid, urls);
    UploadResponse(
      if |allErr| > 0 then "Some files failed to upload" else "Upload successful",
      if |allErr| == |files| then 1 else 0,
      if |allErr| > 0 then Some(allErr) else None,
      Some(SuccessMap(valid, urls)))
  }

  /** One more file of the batch: it joins the rejected names, or it goes
      through with its upload outcome. */
  lemma ScreenStep(files: seq<FileMeta>, attempts: seq<Attempt>, i: nat)
    requires |attempts| == |files| && i < |files|
    ensures Rejected(files[..i + 1]) == Rejected(files[..i]) + (if FileRule(files[i]) then [] else [files[i].name])
    ensures Accepted(files[..i + 1]) == Accepted(files[..i]) + (if FileRule(files[i]) then [files[i]] else [])
    ensures AcceptedAttempts(files[..i + 1], attempts[..i + 1])
      == AcceptedAttempts(files[..i], attempts[..i]) + (if FileRule(files[i]) then [attempts[i]] else [])
  {
    assert files[..i + 1][..i] == files[..i] && attempts[..i + 1][..i] == attempts[..i];
  }

  /** The screening loop: each file over the size limit or not an image is
      named among the failures, the rest are kept with their upload
      outcomes. */
  method Screen(files: seq<FileMeta>, attempts: seq<Attempt>)
    returns (errFiles: seq<string>, validFiles: seq<FileMeta>, validAttempts: seq<Attempt>)
    requires |attempts| == |files|
    ensures errFiles == Rejected(files)
    ensures validFiles == Accepted(files)
    ensures validAttempts == AcceptedAttempts(files, attempts)
  {
    errFiles, validFiles, validAttempts := [], [], [];
    var i := 0;
    while i < |files|
      invariant 0 <= i <= |files|
      invariant errFiles == Rejected(files[..i])
      invariant validFiles == Accepted(files[..i])
      invariant validAttempts == AcceptedAttempts(files[..i], attempts[..i])
    {
      ScreenStep(files, attempts, i);
      var file := files[i];
      if file.size > 10 * 1024 * 1024 {
        errFiles := errFiles + [file.name];
      } else if !StartsWith(file.mime, "image/") {
        errFiles := errFiles + [file.name];
      } else {
        validFiles := validFiles + [file];
        validAttempts := validAttempts + [attempts[i]];
      }
      i := i + 1;
    }
    assert files[..i] == files && attempts[..i] == attempts;
  }

  /** The handler. `request` is the list of files in the form data (`None`
      when reading the form data throws); `attempts[i]` is what uploading
      file `i` would do, consulted only for files that pass the screening. */
  method Post(request: Option<seq<FileMeta>>, config: Config, attempts: seq<Attempt>)
    returns (reply: Reply)
    requires request.Some? ==> |attempts| == |request.value|
    ensures request.None? ==> reply == Reply(500, UploadResponse("Upload failed", 1, Some([]), Some(map[])))
    ensures request.Some? && |request.value| == 0 ==>
      reply == Reply(400, UploadResponse("No files provided", 1, Some([]), Some(map[])))
    ensures request.Some? && |request.value| > MaxFiles ==>
      reply == Reply(400, UploadResponse("Maximum 10 files allowed", 1, Some([]), Some(map[])))
    ensures request.Some? && 1 <= |request.value| <= MaxFiles ==>
      reply == Reply(200, Summary(config, request.value, attempts))
  {
    if request.None? {
      return Reply(500, UploadResponse("Upload failed", 1, Some([]), Some(map[])));
    }
    var files := request.value;
    if |files| == 0 {
      return Reply(400, UploadResponse("No files provided", 1, Some([]), Some(map[])));
    }
    if |files| > 10 {
      return Reply(400, UploadResponse("Maximum 10 files allowed", 1, Some([]), Some(map[])));
    }
    var errFiles, validFiles, validAttempts := Screen(files, attempts);
    var succMap, uploadErrFiles := UploadMultipleFiles(config, validFiles, validAttempts);
    var allErrFiles := errFiles + uploadErrFiles;
    var response := UploadResponse(
      if |allErrFiles| > 0 then "Some files failed to upload" else "Upload successful",
      if |allErrFiles| == |files| then 1 else 0,
      if |allErrFiles| > 0 then Some(allErrFiles) else None,
      Some(succMap));
    return Reply(200, response);
  }

  /** The screening sends each file one way: a file breaking the rule is
      named among the rejected, one keeping it goes on to be uploaded. */
  lemma {:induction false} ScreeningPartition(files: seq<FileMeta>, i: nat)
    requires i < |files|
    ensures !FileRule(files[i]) ==> files[i].name in Rejected(files)
    ensures FileRule(files[i]) ==> files[i] in Accepted(files)
  {
    var n := |files| - 1;
    if i < n {
      assert files[..n][i] == files[i];
      ScreeningPartition(files[..n], i);
    }
  }

  /** The rejections are gathered file by file: they distribute over a
      split of the batch, and a single file is rejected by name exactly when
      it breaks the rule. So they are the names of the breaking files, in
      input order. */
  lemma {:induction false} RejectedAppend(a: seq<FileMeta>, b: seq<FileMeta>)
    ensures Rejected(a + b) == Rejected(a) + Rejected(b)
    ensures |a| == 1 ==> Rejected(a) == (if FileRule(a[0]) then [] else [a[0].name])
  {
    if b == [] {
      assert a + b == a;
    } else {
      var n := |b| - 1;
      var ab := a + b;
      assert ab[..|ab| - 1] == a + b[..n] && ab[|ab| - 1] == b[n];
      var last := if FileRule(b[n]) then [] else [b[n].name];
      calc {
        Rejected(ab);
        Rejected(a + b[..n]) + last;
        { RejectedAppend(a, b[..n]); }
        Rejected(a) + Rejected(b[..n]) + last;
        Rejected(a) + Rejected(b);
      }
    }
    if |a| == 1 {
      assert a[..0] == [];
    }
  }

  /** The files let through, likewise: they distribute over a split of the
      batch. With `AcceptedOne` they are the files keeping the rule, in
      input order and with their repetitions. */
  lemma {:induction false} AcceptedAppend(a: seq<FileMeta>, b: seq<FileMeta>)
    ensures Accepted(a + b) == Accepted(a) + Accepted(b)
  {
    if b == [] {
      assert a + b == a;
    } else {
      var n := |b| - 1;
      var ab := a + b;
      assert ab[..|ab| - 1] == a + b[..n] && ab[|ab| - 1] == b[n];
      var last := if FileRule(b[n]) then [b[n]] else [];
      calc {
        Accepted(ab);
        Accepted(a + b[..n]) + last;
        { AcceptedAppend(a, b[..n]); }
        Accepted(a) + Accepted(b[..n]) + last;
        Accepted(a) + Accepted(b);
      }
    }
  }

  /** A single file goes through exactly when it keeps the rule. */
  lemma AcceptedOne(f: FileMeta)
    ensures Accepted([f]) == (if FileRule(f) then [f] else [])
  {
    assert [f][..0] == [];
  }

  lemma {:induction false} ScreeningCount(files: seq<FileMeta>)
    ensures |Rejected(files)| + |Accepted(files)| == |files|
  {
    if files != [] {
      ScreeningCount(files[..|files| - 1]);
    }
  }

  lemma {:induction false} NoneRejected(files: seq<FileMeta>)
    ensures Rejected(files) == [] <==> forall i :: 0 <= i < |files| ==> FileRule(files[i])
  {
    if files != [] {
      var n := |files| - 1;
      NoneRejected(files[..n]);
      assert forall i :: 0 <= i < n ==> files[..n][i] == files[i];
    }
  }

  /** The route's own checks agree with `fileUploadSchema`: a batch passes
      the count checks and loses no file to the screening exactly when the
      schema accepts it. */
  lemma BatchRuleAgreement(files: seq<FileMeta>)
    ensures FileBatchRule(files) <==> 1 <= |files| <= MaxFiles && Rejected(files) == []
  {
    NoneRejected(files);
  }

  /** The size limit is inclusive: an image of exactly 10 MiB passes, one
      byte more does not. */
  lemma SizeLimitInclusive(name: string, mime: string)
    requires StartsWith(mime, "image/")
    ensures FileRule(FileMeta(name, 10485760, mime))
    ensures !FileRule(FileMeta(name, 10485761, mime))
  {
  }

  /** Code 1 means that no file made it to storage; the message and the
      missing `errFiles` mean that every file did. */
  lemma SummaryVerdict(config: Config, files: seq<FileMeta>, attempts: seq<Attempt>)
    requires |attempts| == |files|
    ensures Summary(config, files, attempts).code == 1 <==>
      SuccessCount(Urls(config, Accepted(files), AcceptedAttempts(files, attempts))) == 0
    ensures Summary(config, files, attempts).errFiles.None? <==>
      Rejected(files) == [] && SuccessCount(Urls(config, Accepted(files), AcceptedAttempts(files, attempts))) == |Accepted(files)|
    ensures Summary(config, files, attempts).msg == "Upload successful" <==>
      Summary(config, files, attempts).errFiles.None?
  {
    var valid := Accepted(files);
    var validAttempts := AcceptedAttempts(files, attempts);
    ScreeningCount(files);
    UploadCount(valid, Urls(config, valid, validAttempts));
  }
}
