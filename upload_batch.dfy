/** The bookkeeping shared by both upload loops (`lib/minio.ts` and
    `src/lib/upload.ts`): each file, in order, either records its public URL
    under its name or adds its name to the failures. A batch is described by
    the files and, aligned with them, the URL each upload produced (`None` for
    a failed upload). */
module UploadBatch {
  import opened Wrappers
  import opened Types

  /** The names of the files whose upload failed, in input order. */
  function FailedNames(files: seq<FileMeta>, urls: seq<Option<string>>): (r: seq<string>)
    requires |urls| == |files|
    ensures |r| <= |files|
  {
    if files == [] then []
    else
      var n := |files| - 1;
      FailedNames(files[..n], urls[..n]) + (if urls[n].None? then [files[n].name] else [])
  }

  /** The one name a plain object will not take as an own key. */
  const ProtoKey: string := "__proto__"

  /** `record[name] = url` on a plain object. Assigning a string to
      `__proto__` reaches the prototype setter, which ignores it, so that
      name never becomes a key. */
  function SetEntry(m: map<string, string>, name: string, url: string): (r: map<string, string>)
    ensures forall k :: k in r <==> k in m || (k == name && name != ProtoKey)
    ensures name != ProtoKey ==> r[name] == url
    ensures forall k :: k in m && k != name ==> r[k] == m[k]
  {
    if name == ProtoKey then m else m[name := url]
  }

  /** The name-to-URL record: each successful upload sets its file's name,
      later files overwriting earlier ones with the same name. */
  function SuccessMap(files: seq<FileMeta>, urls: seq<Option<string>>): (r: map<string, string>)
    requires |urls| == |files|
    ensures ProtoKey !in r
  {
    if files == [] then map[]
    else
      var n := |files| - 1;
      var m := SuccessMap(files[..n], urls[..n]);
      if urls[n].Some? then SetEntry(m, files[n].name, urls[n].value) else m
  }

  /** One more file of the batch: its name joins the failures, or its URL is
      set in the record. */
  lemma BatchStep(files: seq<FileMeta>, urls: seq<Option<string>>, i: nat)
    requires |urls| == |files| && i < |files|
    ensures FailedNames(files[..i + 1], urls[..i + 1])
      == FailedNames(files[..i], urls[..i]) + (if urls[i].None? then [files[i].name] else [])
    ensures SuccessMap(files[..i + 1], urls[..i + 1])
      == if urls[i].Some? then SetEntry(SuccessMap(files[..i], urls[..i]), files[i].name, urls[i].value)
         else SuccessMap(files[..i], urls[..i])
  {
    assert files[..i + 1][..i] == files[..i] && urls[..i + 1][..i] == urls[..i];
  }

  /** How many uploads succeeded. */
  function SuccessCount(urls: seq<Option<string>>): (r: nat)
    ensures r <= |urls|
  {
    if urls == [] then 0
    else SuccessCount(urls[..|urls| - 1]) + (if urls[|urls| - 1].Some? then 1 else 0)
  }

  /** How many uploads succeeded for a file whose name the record can hold. */
  function RecordedCount(files: seq<FileMeta>, urls: seq<Option<string>>): (r: nat)
    requires |urls| == |files|
    ensures r <= SuccessCount(urls)
  {
    if files == [] then 0
    else
      var n := |files| - 1;
      RecordedCount(files[..n], urls[..n]) + (if urls[n].Some? && files[n].name != ProtoKey then 1 else 0)
  }

  /** Every file is counted once: the failures plus the successes make up
      the batch. */
  lemma {:induction false} UploadCount(files: seq<FileMeta>, urls: seq<Option<string>>)
    requires |urls| == |files|
    ensures |FailedNames(files, urls)| + SuccessCount(urls) == |files|
  {
    if files != [] {
      var n := |files| - 1;
      UploadCount(files[..n], urls[..n]);
    }
  }

  /** A file whose upload failed has its name in the failures; a file whose
      upload succeeded has its name in the record, bound to its own URL when
      no later success has the same name. */
  lemma {:induction false} UploadPartition(files: seq<FileMeta>, urls: seq<Option<string>>, i: nat)
    requires |urls| == |files| && i < |files|
    ensures urls[i].None? ==> files[i].name in FailedNames(files, urls)
    ensures urls[i].Some? && files[i].name != ProtoKey ==> files[i].name in SuccessMap(files, urls)
    ensures urls[i].Some? && files[i].name != ProtoKey && (forall j :: i < j < |files| && urls[j].Some? ==> files[j].name != files[i].name) ==>
      SuccessMap(files, urls)[files[i].name] == urls[i].value
  {
    var n := |files| - 1;
    if i < n {
      UploadPartition(files[..n], urls[..n], i);
      assert files[..n][i] == files[i] && urls[..n][i] == urls[i];
      if urls[i].Some? && files[i].name != ProtoKey && (forall j :: i < j < |files| && urls[j].Some? ==> files[j].name != files[i].name) {
        forall j | i < j < n && urls[..n][j].Some? ensures files[..n][j].name != files[..n][i].name {
          assert files[..n][j] == files[j] && urls[..n][j] == urls[j];
        }
      }
    }
  }

  /** The failures are gathered file by file: a batch split in two fails
      the failures of its first part followed by those of its second, and a
      single file fails with its own name exactly when its upload failed.
      So the failures are the failed files' names, in input order. */
  lemma {:induction false} FailedNamesAppend(fa: seq<FileMeta>, ua: seq<Option<string>>, fb: seq<FileMeta>, ub: seq<Option<string>>)
    requires |ua| == |fa| && |ub| == |fb|
    ensures FailedNames(fa + fb, ua + ub) == FailedNames(fa, ua) + FailedNames(fb, ub)
    ensures |fa| == 1 ==> FailedNames(fa, ua) == (if ua[0].None? then [fa[0].name] else [])
  {
    if fb == [] {
      assert fa + fb == fa && ua + ub == ua;
    } else {
      var n := |fb| - 1;
      var f, u := fa + fb, ua + ub;
      assert f[..|f| - 1] == fa + fb[..n] && u[..|u| - 1] == ua + ub[..n];
      assert f[|f| - 1] == fb[n] && u[|u| - 1] == ub[n];
      var last := if ub[n].None? then [fb[n].name] else [];
      calc {
        FailedNames(f, u);
        FailedNames(fa + fb[..n], ua + ub[..n]) + last;
        { FailedNamesAppend(fa, ua, fb[..n], ub[..n]); }
        FailedNames(fa, ua) + FailedNames(fb[..n], ub[..n]) + last;
        FailedNames(fa, ua) + FailedNames(fb, ub);
      }
    }
    if |fa| == 1 {
      assert fa[..0] == [] && ua[..0] == [];
    }
  }

  /** Every key of the record is the name of a file whose upload succeeded,
      and it holds the URL of the last such file: the record has no other
      keys and no other values. */
  lemma {:induction false} SuccessMapKeys(files: seq<FileMeta>, urls: seq<Option<string>>, k: string)
    requires |urls| == |files|
    ensures k in SuccessMap(files, urls) ==>
      exists i :: 0 <= i < |files| && urls[i].Some? && files[i].name == k && SuccessMap(files, urls)[k] == urls[i].value
        && forall j :: i < j < |files| && urls[j].Some? ==> files[j].name != k
  {
    if files != [] && k in SuccessMap(files, urls) {
      var n := |files| - 1;
      var m := SuccessMap(files[..n], urls[..n]);
      if urls[n].Some? && files[n].name == k {
        assert SuccessMap(files, urls)[k] == urls[n].value;
      } else {
        assert k in m && SuccessMap(files, urls)[k] == m[k];
        SuccessMapKeys(files[..n], urls[..n], k);
        var i :| 0 <= i < n && urls[..n][i].Some? && files[..n][i].name == k && m[k] == urls[..n][i].value
          && forall j :: i < j < n && urls[..n][j].Some? ==> files[..n][j].name != k;
        assert files[..n][i] == files[i] && urls[..n][i] == urls[i];
        forall j | i < j < |files| && urls[j].Some? ensures files[j].name != k {
          if j < n {
            assert files[..n][j] == files[j] && urls[..n][j] == urls[j];
          }
        }
      }
    }
  }

  /** The failures are empty exactly when every upload succeeded, and the
      record is empty exactly when no upload succeeded for a file named
      other than `__proto__`. */
  lemma {:induction false} UploadAllOrNothing(files: seq<FileMeta>, urls: seq<Option<string>>)
    requires |urls| == |files|
    ensures SuccessCount(urls) == |files| <==> FailedNames(files, urls) == []
    ensures RecordedCount(files, urls) == 0 <==> SuccessMap(files, urls) == map[]
  {
    UploadCount(files, urls);
    if files != [] {
      var n := |files| - 1;
      UploadAllOrNothing(files[..n], urls[..n]);
      if urls[n].Some? && files[n].name != ProtoKey {
        assert files[n].name in SuccessMap(files, urls);
      }
    }
  }
}
