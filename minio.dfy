/** The server-side object storage client (`lib/minio.ts`): where an uploaded
    file is stored, the URL it is served from, and the loop that uploads a
    batch and sorts the files into successes and failures. The storage
    service, the clock and the random suffix are outside the model: what one
    upload attempt does is a parameter. */
module Minio {
  import opened Wrappers
  import opened Types
  import opened JsText
  import opened UploadBatch

  /** The `MINIO_ENDPOINT` and `MINIO_BUCKET` environment variables. */
  datatype Config = Config(endpoint: string, bucket: string)

  /** What one `uploadFile` call does: the object is stored, under a key made
      from the clock reading and the random suffix it drew, or the call
      throws. The suffix is base-36 digits, so it holds no '-'. */
  datatype Attempt = Stored(timestamp: nat, suffix: string) | Failed

  /** The object key: `uploads/<timestamp>-<suffix>-<file name>`. */
  function ObjectKey(timestamp: nat, suffix: string, name: string): string {
    "uploads/" + Decimal(timestamp) + "-" + suffix + "-" + name
  }

  /** The public URL: `<endpoint>/<bucket>/<key>`. */
  function PublicUrl(config: Config, key: string): string {
    config.endpoint + "/" + config.bucket + "/" + key
  }

  /** `uploadFile`: the URL of the stored object, or `None` when it throws. */
  function UploadFile(config: Config, f: FileMeta, attempt: Attempt): (r: Option<string>)
    ensures r.Some? <==> attempt.Stored?
    ensures r.Some? ==> r.value == PublicUrl(config, ObjectKey(attempt.timestamp, attempt.suffix, f.name))
  {
    match attempt
    case Stored(timestamp, suffix) => Some(PublicUrl(config, ObjectKey(timestamp, suffix, f.name)))
    case Failed => None
  }

  /** In a dash-free head followed by a dash, the first dash is the one after
      the head. */
  lemma DashAfterHead(a: string, b: string)
    requires '-' !in a
    ensures (a + "-" + b)[|a|] == '-'
    ensures forall i :: 0 <= i < |a| ==> (a + "-" + b)[i] != '-'
  {
    forall i | 0 <= i < |a| ensures (a + "-" + b)[i] != '-' {
      assert (a + "-" + b)[i] == a[i];
    }
  }

  /** Cutting at the first '-': two strings that agree after a dash-free
      head and a dash agree in head and tail. */
  lemma SplitAtDash(a: string, b: string, c: string, d: string)
    requires '-' !in a && '-' !in c
    requires a + "-" + b == c + "-" + d
    ensures a == c && b == d
  {
    var s := a + "-" + b;
    assert |a| == |c| by {
      DashAfterHead(a, b);
      DashAfterHead(c, d);
    }
    assert a == s[..|a|];
    assert c == s[..|c|];
    assert b == s[|a| + 1..];
    assert d == (c + "-" + d)[|c| + 1..];
  }

  /** Keys of objects stored at different clock readings or with different
      suffixes differ, and a key determines the file name. */
  lemma ObjectKeyInjective(t1: nat, s1: string, n1: string, t2: nat, s2: string, n2: string)
    requires '-' !in s1 && '-' !in s2
    requires ObjectKey(t1, s1, n1) == ObjectKey(t2, s2, n2)
    ensures t1 == t2 && s1 == s2 && n1 == n2
  {
    var d1, d2 := Decimal(t1), Decimal(t2);
    var k := ObjectKey(t1, s1, n1);
    assert k == "uploads/" + (d1 + "-" + (s1 + "-" + n1));
    assert k == "uploads/" + (d2 + "-" + (s2 + "-" + n2));
    assert d1 + "-" + (s1 + "-" + n1) == k[8..];
    assert d2 + "-" + (s2 + "-" + n2) == k[8..];
    assert '-' !in d1 by {
      forall i | 0 <= i < |d1| ensures d1[i] != '-' { assert IsDigit(d1[i]); }
    }
    assert '-' !in d2 by {
      forall i | 0 <= i < |d2| ensures d2[i] != '-' { assert IsDigit(d2[i]); }
    }
    SplitAtDash(d1, s1 + "-" + n1, d2, s2 + "-" + n2);
    DecimalInjective(t1, t2);
    SplitAtDash(s1, n1, s2, n2);
  }

  /** What `uploadFile` gives for each file of the batch. */
  function Urls(config: Config, files: seq<FileMeta>, attempts: seq<Attempt>): (r: seq<Option<string>>)
    requires |attempts| == |files|
    ensures |r| == |files|
  {
    if files == [] then []
    else [UploadFile(config, files[0], attempts[0])] + Urls(config, files[1..], attempts[1..])
  }

  lemma {:induction false} UrlsAt(config: Config, files: seq<FileMeta>, attempts: seq<Attempt>, i: nat)
    requires |attempts| == |files| && i < |files|
    ensures Urls(config, files, attempts)[i] == UploadFile(config, files[i], attempts[i])
  {
    if i > 0 {
      UrlsAt(config, files[1..], attempts[1..], i - 1);
    }
  }

  /** `uploadMultipleFiles`: tries every file once, in order; it never throws,
      since a failed upload only adds the file's name to `errFiles`. */
  method UploadMultipleFiles(config: Config, files: seq<FileMeta>, attempts: seq<Attempt>)
    returns (succMap: map<string, string>, errFiles: seq<string>)
    requires |attempts| == |files|
    ensures succMap == SuccessMap(files, Urls(config, files, attempts))
    ensures errFiles == FailedNames(files, Urls(config, files, attempts))
  {
    ghost var urls := Urls(config, files, attempts);
    succMap := map[];
    errFiles := [];
    var i := 0;
    while i < |files|
      invariant 0 <= i <= |files|
      invariant succMap == SuccessMap(files[..i], urls[..i])
      invariant errFiles == FailedNames(files[..i], urls[..i])
    {
      assert files[..i + 1][..i] == files[..i] && urls[..i + 1][..i] == urls[..i];
      UrlsAt(config, files, attempts, i);
      var url := UploadFile(config, files[i], attempts[i]);
      if url.Some? {
        succMap := SetEntry(succMap, files[i].name, url.value);
      } else {
        errFiles := errFiles + [files[i].name];
      }
      i := i + 1;
    }
    assert files[..i] == files && urls[..i] == urls;
  }
}
