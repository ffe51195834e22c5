/** The browser cache of submitted questions of the server-rendered
    application (`lib/storage.ts`): one `localStorage` slot holding a JSON
    array of cached questions, read with fallbacks, appended to, cleared, and
    merged with the server's list. */
module Storage {
  import opened Wrappers
  import opened Types
  import opened InsertionMap
  import opened StableSort

  /** What the slot `submitted_questions` holds: nothing, the empty string,
      text that does not parse as JSON, JSON that is not an array, or an
      array of cached questions. */
  datatype Slot = Absent | Empty | Garbage | NonArray | Records(qs: seq<LocalQuestion>)

  /** What `localStorage.setItem` does with the new array: stores it, or
      throws (the quota is full, or storage is blocked) an error with the
      given message. */
  datatype Write = Written | WriteThrew(message: string)

  /** The stored array; every other slot content reads as no questions. */
  function Read(slot: Slot): (r: seq<LocalQuestion>)
    ensures slot.Records? ==> r == slot.qs
    ensures !slot.Records? ==> r == []
  {
    match slot
    case Records(qs) => qs
    case _ => []
  }

  /** A present, non-empty id (the empty string is falsy in JavaScript). */
  predicate HasId(q: Question) {
    q.id.Some? && q.id.value != ""
  }

  /** `{...q, id: q.id || freshId, createdAt: q.createdAt || now}`. */
  function Complete(q: Question, freshId: string, now: nat): (r: LocalQuestion)
    ensures r.draft == q.draft
    ensures HasId(q) ==> r.id == q.id.value
    ensures !HasId(q) ==> r.id == freshId
    ensures q.createdAt.Some? ==> r.createdAt == q.createdAt.value
    ensures q.createdAt.None? ==> r.createdAt == now
  {
    LocalQuestion(if HasId(q) then q.id.value else freshId, q.draft, q.createdAt.GetOr(now))
  }

  /** A cached question with a non-empty id passes through unchanged, so
      completing is idempotent once the fresh id is non-empty. */
  lemma CompleteKeepsCached(lq: LocalQuestion, freshId: string, now: nat)
    requires lq.id != ""
    ensures Complete(AsQuestion(lq), freshId, now) == lq
  {
  }

  lemma CompleteIdempotent(q: Question, freshId: string, now: nat, freshId2: string, now2: nat)
    requires freshId != ""
    ensures Complete(AsQuestion(Complete(q, freshId, now)), freshId2, now2) == Complete(q, freshId, now)
  {
    CompleteKeepsCached(Complete(q, freshId, now), freshId2, now2);
  }

  /** The server records that enter the merge, in server order: those with a
      non-empty id, with a missing timestamp replaced by `now` (the fresh id
      is never consulted, since each has an id). */
  function Entries(server: seq<Question>, now: nat): seq<LocalQuestion>
  {
    if server == [] then []
    else
      var last := server[|server|-1];
      Entries(server[..|server|-1], now) + (if HasId(last) then [Complete(last, "", now)] else [])
  }

  /** The last server record whose id is `k`, if any. */
  function LastServer(server: seq<Question>, k: string): (r: Option<Question>)
    ensures r.Some? ==> r.value in server && r.value.id == Some(k)
    ensures r.None? <==> forall i :: 0 <= i < |server| ==> server[i].id != Some(k)
  {
    if server == [] then None
    else if server[|server|-1].id == Some(k) then Some(server[|server|-1])
    else
      var r := LastServer(server[..|server|-1], k);
      assert forall i :: 0 <= i < |server| - 1 ==> server[..|server|-1][i] == server[i];
      r
  }

  /** The map after both loops: local questions first, then the server's. */
  function Merged(local: seq<LocalQuestion>, server: seq<Question>, now: nat): seq<LocalQuestion>
  {
    PutAll(PutAll([], local), Entries(server, now))
  }

  /** The merge result: the map's values, newest first. */
  function Merge(local: seq<LocalQuestion>, server: seq<Question>, now: nat): seq<LocalQuestion>
  {
    SortDesc(Merged(local, server, now))
  }

  /** The entry under a non-empty key `k` is the last server record with id
      `k`, completed; the empty key never comes from the server. */
  lemma {:induction false} EntriesLast(server: seq<Question>, now: nat, k: string)
    ensures k == "" ==> LastWith(Entries(server, now), k) == None
    ensures k != "" && LastServer(server, k).None? ==> LastWith(Entries(server, now), k) == None
    ensures k != "" && LastServer(server, k).Some? ==>
      LastWith(Entries(server, now), k) == Some(Complete(LastServer(server, k).value, "", now))
  {
    if server != [] {
      var init := server[..|server|-1];
      var last := server[|server|-1];
      EntriesLast(init, now, k);
      var e := Entries(init, now);
      if HasId(last) {
        var c := Complete(last, "", now);
        assert Entries(server, now) == e + [c];
        assert (e + [c])[..|e|] == e;
      } else {
        assert Entries(server, now) == e + [];
        assert e + [] == e;
      }
    }
  }

  /** One more server record either adds its completed form or nothing:
      on any map `m`, it is one more `set` or none. */
  lemma EntriesStep(m: seq<LocalQuestion>, server: seq<Question>, j: nat, now: nat)
    requires j < |server|
    ensures !HasId(server[j]) ==> Entries(server[..j + 1], now) == Entries(server[..j], now)
    ensures HasId(server[j]) ==>
      Entries(server[..j + 1], now) == Entries(server[..j], now) + [Complete(server[j], "", now)]
    ensures PutAll(m, Entries(server[..j + 1], now))
      == if HasId(server[j]) then Put(PutAll(m, Entries(server[..j], now)), Complete(server[j], "", now))
         else PutAll(m, Entries(server[..j], now))
  {
    assert server[..j + 1][..j] == server[..j];
    var e := Entries(server[..j], now);
    if HasId(server[j]) {
      var c := Complete(server[j], "", now);
      assert (e + [c])[..|e|] == e;
    } else {
      assert e + [] == e;
    }
  }

  lemma {:induction false} InsertDistinct(x: LocalQuestion, r: seq<LocalQuestion>)
    requires Distinct(r)
    requires forall y :: y in r ==> y.id != x.id
    ensures Distinct(Insert(x, r))
  {
    if r != [] && r[0].createdAt > x.createdAt {
      var t := Insert(x, r[1..]);
      assert forall y :: y in r[1..] ==> y in r;
      assert Distinct(r[1..]) by {
        forall i, j | 0 <= i < j < |r[1..]| ensures r[1..][i].id != r[1..][j].id {
          assert r[1..][i] == r[i + 1] && r[1..][j] == r[j + 1];
        }
      }
      InsertDistinct(x, r[1..]);
      InsertPermutes(x, r[1..]);
      forall k | 0 <= k < |t| ensures t[k].id != r[0].id {
        var y := t[k];
        assert y in multiset(t);
        if y != x {
          assert y in multiset(r[1..]);
          var j :| 0 <= j < |r[1..]| && r[1..][j] == y;
          assert r[j + 1] == y;
        }
      }
      var u := [r[0]] + t;
      forall i, j | 0 <= i < j < |u| ensures u[i].id != u[j].id {
        assert u[j] == t[j - 1];
        if i > 0 {
          assert u[i] == t[i - 1];
        }
      }
    }
  }

  /** Sorting a map's values keeps the keys distinct. */
  lemma {:induction false} SortDescDistinct(s: seq<LocalQuestion>)
    requires Distinct(s)
    ensures Distinct(SortDesc(s))
  {
    if s != [] {
      assert Distinct(s[1..]) by {
        forall i, j | 0 <= i < j < |s[1..]| ensures s[1..][i].id != s[1..][j].id {
          assert s[1..][i] == s[i + 1] && s[1..][j] == s[j + 1];
        }
      }
      SortDescDistinct(s[1..]);
      SortDescMembers(s[1..]);
      forall y | y in SortDesc(s[1..]) ensures y.id != s[0].id {
        var j :| 0 <= j < |s[1..]| && s[1..][j] == y;
        assert s[j + 1] == y;
      }
      InsertDistinct(s[0], SortDesc(s[1..]));
    }
  }

  /** In a map with distinct keys, a lookup finds exactly the entry that
      carries the key. */
  lemma FindDistinct(m: seq<LocalQuestion>, k: string, y: LocalQuestion)
    requires Distinct(m)
    ensures Find(m, k) == Some(y) <==> y in m && y.id == k
  {
    if y in m && y.id == k {
      var j :| 0 <= j < |m| && m[j] == y;
      var z := Find(m, k).value;
      var i :| 0 <= i < |m| && m[i] == z;
    }
  }

  /** Sorting a map's values does not change what any key finds. */
  lemma SortDescFind(m: seq<LocalQuestion>, k: string)
    requires Distinct(m)
    ensures Find(SortDesc(m), k) == Find(m, k)
  {
    SortDescDistinct(m);
    SortDescMembers(m);
    var a := Find(SortDesc(m), k);
    var b := Find(m, k);
    if a.Some? {
      FindDistinct(m, k, a.value);
      FindDistinct(SortDesc(m), k, a.value);
    } else if b.Some? {
      FindDistinct(SortDesc(m), k, b.value);
      FindDistinct(m, k, b.value);
    }
  }

  lemma MergedDistinct(local: seq<LocalQuestion>, server: seq<Question>, now: nat)
    ensures Distinct(Merged(local, server, now))
  {
    PutAllDistinct([], local);
    PutAllDistinct(PutAll([], local), Entries(server, now));
  }

  /** The merge result never holds two questions with the same id. */
  lemma MergeDistinct(local: seq<LocalQuestion>, server: seq<Question>, now: nat)
    ensures Distinct(Merge(local, server, now))
  {
    MergedDistinct(local, server, now);
    SortDescDistinct(Merged(local, server, now));
  }

  /** What each id holds after the merge, before the server's completion is
      spelled out. */
  lemma MergeFind(local: seq<LocalQuestion>, server: seq<Question>, now: nat, k: string)
    ensures Find(Merge(local, server, now), k) ==
      var e := LastWith(Entries(server, now), k);
      if e.Some? then e else LastWith(local, k)
  {
    MergedDistinct(local, server, now);
    SortDescFind(Merged(local, server, now), k);
    PutAllFind(PutAll([], local), Entries(server, now), k);
    PutAllFind([], local, k);
  }

  /** The server is the source of truth: for a non-empty id carried by some
      server record, the merge holds the last such record, completed with
      `now` when its timestamp is missing. */
  lemma MergeServerWins(local: seq<LocalQuestion>, server: seq<Question>, now: nat, k: string)
    requires k != "" && LastServer(server, k).Some?
    ensures Find(Merge(local, server, now), k) == Some(Complete(LastServer(server, k).value, "", now))
  {
    MergeFind(local, server, now, k);
    EntriesLast(server, now, k);
  }

  /** A cached question whose id no server record carries (records without an
      id never count) survives the merge unchanged; among cached duplicates the
      later one wins. */
  lemma MergeLocalSurvives(local: seq<LocalQuestion>, server: seq<Question>, now: nat, k: string)
    requires k == "" || LastServer(server, k).None?
    ensures Find(Merge(local, server, now), k) == LastWith(local, k)
  {
    MergeFind(local, server, now, k);
    EntriesLast(server, now, k);
  }

  /** Every question in the merge result is the one its id finds, so the two
      lemmas above describe the result completely. */
  lemma MergeMembers(local: seq<LocalQuestion>, server: seq<Question>, now: nat, y: LocalQuestion)
    requires y in Merge(local, server, now)
    ensures Find(Merge(local, server, now), y.id) == Some(y)
  {
    MergeDistinct(local, server, now);
    FindDistinct(Merge(local, server, now), y.id, y);
  }

  /** The merge result is sorted newest first. */
  lemma MergeSorted(local: seq<LocalQuestion>, server: seq<Question>, now: nat)
    ensures SortedDesc(Merge(local, server, now))
  {
    SortDescSorted(Merged(local, server, now));
  }

  /** Ties keep the map's insertion order: among questions with one timestamp
      the result follows the map, whose keys are the cached ids in first-seen
      order followed by the new server ids in server order. */
  lemma MergeTieOrder(local: seq<LocalQuestion>, server: seq<Question>, now: nat, t: nat)
    ensures WithTime(Merge(local, server, now), t) == WithTime(Merged(local, server, now), t)
    ensures Ids(Merged(local, server, now)) ==
      AppendNew(AppendNew([], Ids(local)), Ids(Entries(server, now)))
  {
    SortDescStable(Merged(local, server, now), t);
    PutAllIds([], local);
    PutAllIds(PutAll([], local), Entries(server, now));
  }

  /** The cache of one browser tab; `browser` is false during server-side
      rendering, where there is no `localStorage`. */
  class QuestionStore {
    const browser: bool
    var slot: Slot

    constructor (browser: bool, slot: Slot)
      ensures this.browser == browser && this.slot == slot
    {
      this.browser := browser;
      this.slot := slot;
    }

    /** `getQuestions`: the stored array, or no questions outside a browser
        or when the slot holds anything else. */
    function GetQuestions(): (r: seq<LocalQuestion>)
      reads this
      ensures !browser ==> r == []
      ensures browser && slot.Records? ==> r == slot.qs
      ensures browser && !slot.Records? ==> r == []
    {
      if browser then Read(slot) else []
    }

    /** `saveQuestion`: in a browser whose write goes through, the stored
        array gains exactly one record at the end, the question with its
        defaults filled in. A write that throws leaves the slot as it was and
        passes the error on, since nothing catches it; outside a browser
        nothing happens. */
    method SaveQuestion(q: Question, freshId: string, now: nat, write: Write) returns (thrown: Option<string>)
      modifies this
      ensures browser && write.Written? ==> slot == Records(old(GetQuestions()) + [Complete(q, freshId, now)])
      ensures browser && write.Written? ==> GetQuestions() == old(GetQuestions()) + [Complete(q, freshId, now)]
      ensures !(browser && write.Written?) ==> slot == old(slot)
      ensures thrown.Some? <==> browser && write.WriteThrew?
      ensures thrown.Some? ==> thrown.value == write.message
    {
      if !browser {
        return None;
      }
      var questions := GetQuestions();
      var localQuestion := Complete(q, freshId, now);
      questions := questions + [localQuestion];
      if write.WriteThrew? {
        return Some(write.message);
      }
      slot := Records(questions);
      return None;
    }

    /** `clearQuestions`: afterwards there are no cached questions. */
    method ClearQuestions()
      modifies this
      ensures browser ==> slot == Absent
      ensures !browser ==> slot == old(slot)
      ensures GetQuestions() == []
    {
      if !browser {
        return;
      }
      slot := Absent;
    }

    /** `mergeWithServerData`: fills the map from the cache and then from the
        server, and returns its values newest first. It changes nothing. */
    method MergeWithServerData(server: seq<Question>, now: nat) returns (r: seq<LocalQuestion>)
      ensures !browser ==> r == []
      ensures browser ==> r == Merge(Read(slot), server, now)
    {
      if !browser {
        return [];
      }
      var local := GetQuestions();
      var merged: seq<LocalQuestion> := [];
      var i := 0;
      while i < |local|
        invariant 0 <= i <= |local|
        invariant merged == PutAll([], local[..i])
      {
        assert PutAll([], local[..i + 1]) == Put(merged, local[i]) by {
          assert local[..i + 1][..i] == local[..i];
        }
        merged := Put(merged, local[i]);
        i := i + 1;
      }
      assert local[..i] == local;
      var start := merged;
      var j := 0;
      while j < |server|
        invariant 0 <= j <= |server|
        invariant merged == PutAll(start, Entries(server[..j], now))
      {
        EntriesStep(start, server, j, now);
        var q := server[j];
        if HasId(q) {
          merged := Put(merged, Complete(q, "", now));
        }
        j := j + 1;
      }
      assert server[..j] == server;
      r := SortDesc(merged);
    }
  }
}
