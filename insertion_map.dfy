/** The JavaScript `Map` that the merge of cached and server questions fills:
    keyed by question id, its entries keep the order in which their keys were
    first set, and setting a key that is already there replaces the value in
    place. The map is a sequence of cached questions, one per key. */
module InsertionMap {
  import opened Wrappers
  import opened Types

  /** The keys, in insertion order. */
  function Ids(m: seq<LocalQuestion>): (r: seq<string>)
    ensures |r| == |m| && forall i :: 0 <= i < |m| ==> r[i] == m[i].id
  {
    if m == [] then [] else [m[0].id] + Ids(m[1..])
  }

  /** No key occurs twice. */
  predicate Distinct(m: seq<LocalQuestion>) {
    forall i, j :: 0 <= i < j < |m| ==> m[i].id != m[j].id
  }

  /** `map.get(k)`: the entry stored under `k`, if any. */
  function Find(m: seq<LocalQuestion>, k: string): (r: Option<LocalQuestion>)
    ensures r.Some? ==> r.value in m && r.value.id == k
    ensures r.None? <==> k !in Ids(m)
  {
    if m == [] then None
    else if m[0].id == k then Some(m[0])
    else Find(m[1..], k)
  }

  /** `map.set(q.id, q)`: replaces the entry under `q.id` where it stands, or
      appends a new entry at the end. */
  function Put(m: seq<LocalQuestion>, q: LocalQuestion): seq<LocalQuestion>
  {
    if m == [] then [q]
    else if m[0].id == q.id then [q] + m[1..]
    else [m[0]] + Put(m[1..], q)
  }

  /** After setting `q`, its key finds `q` and every other key finds what it
      found before. */
  lemma {:induction false} PutFind(m: seq<LocalQuestion>, q: LocalQuestion, k: string)
    ensures Find(Put(m, q), k) == if k == q.id then Some(q) else Find(m, k)
  {
    if m != [] && m[0].id != q.id {
      PutFind(m[1..], q, k);
    }
  }

  /** Setting a key that is present keeps the keys; setting a new one appends
      it. */
  lemma {:induction false} PutIds(m: seq<LocalQuestion>, q: LocalQuestion)
    ensures Ids(Put(m, q)) == if q.id in Ids(m) then Ids(m) else Ids(m) + [q.id]
  {
    if m != [] && m[0].id != q.id {
      PutIds(m[1..], q);
      assert Ids([m[0]] + Put(m[1..], q)) == [m[0].id] + Ids(Put(m[1..], q));
      assert Ids(m) == [m[0].id] + Ids(m[1..]);
    }
  }

  /** Setting an absent key adds a fresh key; setting a present one keeps the
      keys as they are: either way no key is duplicated. */
  lemma PutDistinct(m: seq<LocalQuestion>, q: LocalQuestion)
    requires Distinct(m)
    ensures Distinct(Put(m, q))
  {
    var r := Put(m, q);
    PutIds(m, q);
    forall i, j | 0 <= i < j < |r| ensures r[i].id != r[j].id {
      assert r[i].id == Ids(r)[i] && r[j].id == Ids(r)[j];
      if q.id in Ids(m) {
        assert Ids(r)[i] == m[i].id && Ids(r)[j] == m[j].id;
      } else if j < |m| {
        assert Ids(r)[i] == m[i].id && Ids(r)[j] == m[j].id;
      } else {
        assert Ids(r)[i] == Ids(m)[i];
      }
    }
  }

  /** Setting every question of `s` in order, starting from `m`. */
  function PutAll(m: seq<LocalQuestion>, s: seq<LocalQuestion>): seq<LocalQuestion>
  {
    if s == [] then m else Put(PutAll(m, s[..|s|-1]), s[|s|-1])
  }

  /** The last question of `s` with id `k`, if any. */
  function LastWith(s: seq<LocalQuestion>, k: string): (r: Option<LocalQuestion>)
    ensures r.Some? ==> r.value in s && r.value.id == k
    ensures r.None? <==> k !in Ids(s)
  {
    if s == [] then None
    else
      var init := s[..|s|-1];
      assert Ids(s) == Ids(init) + [s[|s|-1].id];
      if s[|s|-1].id == k then Some(s[|s|-1]) else LastWith(init, k)
  }

  /** The question at `i` is the last with its id. */
  lemma {:induction false} LastWithAt(s: seq<LocalQuestion>, i: nat)
    requires i < |s|
    requires forall j :: i < j < |s| ==> s[j].id != s[i].id
    ensures LastWith(s, s[i].id) == Some(s[i])
    decreases |s|
  {
    if i < |s| - 1 {
      var init := s[..|s|-1];
      assert init[i] == s[i];
      LastWithAt(init, i);
    }
  }

  /** After setting all of `s`, a key holds the last question of `s` with that
      key, or what it held before when `s` has none. */
  lemma {:induction false} PutAllFind(m: seq<LocalQuestion>, s: seq<LocalQuestion>, k: string)
    ensures Find(PutAll(m, s), k) == if LastWith(s, k).Some? then LastWith(s, k) else Find(m, k)
  {
    if s != [] {
      PutAllFind(m, s[..|s|-1], k);
      PutFind(PutAll(m, s[..|s|-1]), s[|s|-1], k);
    }
  }

  lemma {:induction false} PutAllDistinct(m: seq<LocalQuestion>, s: seq<LocalQuestion>)
    requires Distinct(m)
    ensures Distinct(PutAll(m, s))
  {
    if s != [] {
      PutAllDistinct(m, s[..|s|-1]);
      PutDistinct(PutAll(m, s[..|s|-1]), s[|s|-1]);
    }
  }

  /** `xs` followed by the members of `ys` that are new, each at its first
      occurrence. */
  function AppendNew(xs: seq<string>, ys: seq<string>): (r: seq<string>)
    ensures xs <= r
    ensures forall k :: k in r <==> k in xs || k in ys
  {
    if ys == [] then xs
    else
      var a := AppendNew(xs, ys[..|ys|-1]);
      assert ys == ys[..|ys|-1] + [ys[|ys|-1]];
      if ys[|ys|-1] in a then a else a + [ys[|ys|-1]]
  }

  /** The keys after setting all of `s`: the old keys, then the new keys of
      `s` in the order they were first set. */
  lemma {:induction false} PutAllIds(m: seq<LocalQuestion>, s: seq<LocalQuestion>)
    ensures Ids(PutAll(m, s)) == AppendNew(Ids(m), Ids(s))
  {
    if s != [] {
      var init := s[..|s|-1];
      PutAllIds(m, init);
      PutIds(PutAll(m, init), s[|s|-1]);
      assert Ids(s)[..|s|-1] == Ids(init);
    }
  }
}
