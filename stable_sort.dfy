/** The ordering of cached questions, newest first: `Array.prototype.sort`
    with a comparator that subtracts the older timestamp from the newer one.
    The JavaScript sort is stable, so questions with equal timestamps keep
    their relative order; here it is an insertion sort with that property. */
module StableSort {
  import opened Types

  /** Newest first: timestamps never increase along the sequence. */
  predicate SortedDesc(s: seq<LocalQuestion>) {
    forall i, j :: 0 <= i < j < |s| ==> s[i].createdAt >= s[j].createdAt
  }

  /** Places `x` before the first question no newer than `x`. */
  function Insert(x: LocalQuestion, r: seq<LocalQuestion>): seq<LocalQuestion>
  {
    if r == [] || r[0].createdAt <= x.createdAt then [x] + r
    else [r[0]] + Insert(x, r[1..])
  }

  /** The sorted order of `s`. */
  function SortDesc(s: seq<LocalQuestion>): seq<LocalQuestion>
  {
    if s == [] then [] else Insert(s[0], SortDesc(s[1..]))
  }

  lemma {:induction false} InsertPermutes(x: LocalQuestion, r: seq<LocalQuestion>)
    ensures multiset(Insert(x, r)) == multiset(r) + multiset{x}
  {
    if r != [] && r[0].createdAt > x.createdAt {
      InsertPermutes(x, r[1..]);
      assert r == [r[0]] + r[1..];
    }
  }

  /** The result is a permutation of the input. */
  lemma {:induction false} SortDescPermutes(s: seq<LocalQuestion>)
    ensures multiset(SortDesc(s)) == multiset(s)
  {
    if s != [] {
      SortDescPermutes(s[1..]);
      InsertPermutes(s[0], SortDesc(s[1..]));
      assert s == [s[0]] + s[1..];
    }
  }

  lemma {:induction false} InsertSorted(x: LocalQuestion, r: seq<LocalQuestion>)
    requires SortedDesc(r)
    ensures SortedDesc(Insert(x, r))
  {
    if r != [] && r[0].createdAt > x.createdAt {
      var t := Insert(x, r[1..]);
      InsertSorted(x, r[1..]);
      InsertPermutes(x, r[1..]);
      forall k | 0 <= k < |t| ensures t[k].createdAt <= r[0].createdAt {
        var y := t[k];
        assert y in multiset(t);
        if y != x {
          assert y in multiset(r[1..]);
          var j :| 0 <= j < |r[1..]| && r[1..][j] == y;
          assert r[j + 1] == y;
        }
      }
      var u := [r[0]] + t;
      forall i, j | 0 <= i < j < |u| ensures u[i].createdAt >= u[j].createdAt {
        assert u[j] == t[j - 1];
        if i > 0 {
          assert u[i] == t[i - 1];
        }
      }
    }
  }

  /** The result is sorted newest first. */
  lemma {:induction false} SortDescSorted(s: seq<LocalQuestion>)
    ensures SortedDesc(SortDesc(s))
  {
    if s != [] {
      SortDescSorted(s[1..]);
      InsertSorted(s[0], SortDesc(s[1..]));
    }
  }

  /** The questions of `s` with timestamp `t`, in order. */
  function WithTime(s: seq<LocalQuestion>, t: nat): seq<LocalQuestion>
  {
    if s == [] then []
    else (if s[0].createdAt == t then [s[0]] else []) + WithTime(s[1..], t)
  }

  lemma {:induction false} WithTimeAppend(a: seq<LocalQuestion>, b: seq<LocalQuestion>, t: nat)
    ensures WithTime(a + b, t) == WithTime(a, t) + WithTime(b, t)
  {
    if a == [] {
      assert a + b == b;
    } else {
      assert (a + b)[0] == a[0] && (a + b)[1..] == a[1..] + b;
      WithTimeAppend(a[1..], b, t);
    }
  }

  lemma {:induction false} InsertWithTime(x: LocalQuestion, r: seq<LocalQuestion>, t: nat)
    ensures WithTime(Insert(x, r), t) == (if x.createdAt == t then [x] else []) + WithTime(r, t)
  {
    if r == [] || r[0].createdAt <= x.createdAt {
      WithTimeAppend([x], r, t);
    } else {
      var head := WithTime([r[0]], t);
      var i := Insert(x, r[1..]);
      assert Insert(x, r) == [r[0]] + i;
      assert WithTime(Insert(x, r), t) == head + WithTime(i, t) by {
        WithTimeAppend([r[0]], i, t);
      }
      assert WithTime(r, t) == head + WithTime(r[1..], t) by {
        WithTimeAppend([r[0]], r[1..], t);
        assert [r[0]] + r[1..] == r;
      }
      InsertWithTime(x, r[1..], t);
      if x.createdAt == t {
        assert head == [];
      }
    }
  }

  /** Stability: questions with the same timestamp come out in the order they
      went in. */
  lemma {:induction false} SortDescStable(s: seq<LocalQuestion>, t: nat)
    ensures WithTime(SortDesc(s), t) == WithTime(s, t)
  {
    if s != [] {
      SortDescStable(s[1..], t);
      InsertWithTime(s[0], SortDesc(s[1..]), t);
    }
  }

  /** The sort keeps the questions: a question is in the result exactly when
      it is in the input. */
  lemma SortDescMembers(s: seq<LocalQuestion>)
    ensures forall y :: y in SortDesc(s) <==> y in s
  {
    SortDescPermutes(s);
    forall y ensures y in SortDesc(s) <==> y in s {
      assert y in SortDesc(s) <==> y in multiset(SortDesc(s));
      assert y in s <==> y in multiset(s);
    }
  }
}
