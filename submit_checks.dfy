/** The pre-network part of `handleSubmit`, which both question forms share
    word for word: the blank-field checks in their fixed order, the tag
    tokenizer (`split(/[,\s]+/)`, `map(trim)`, `filter(length > 0)`) and the
    construction of the draft that is sent. */
module SubmitChecks {
  import opened Wrappers
  import opened JsText
  import opened Types
  import Validations

  /** A character of the class `[,\s]`. */
  predicate IsSeparator(c: char) {
    c == ',' || IsSpace(c)
  }

  predicate NoSeparator(s: string) {
    forall i :: 0 <= i < |s| ==> !IsSeparator(s[i])
  }

  /** Length of the longest prefix free of separators. */
  function TokenLength(s: string): nat {
    if s == [] || IsSeparator(s[0]) then 0 else 1 + TokenLength(s[1..])
  }

  lemma {:induction false} TokenLengthSpec(s: string)
    ensures TokenLength(s) <= |s| && NoSeparator(s[..TokenLength(s)])
    ensures TokenLength(s) < |s| ==> IsSeparator(s[TokenLength(s)])
  {
    if s != [] && !IsSeparator(s[0]) {
      TokenLengthSpec(s[1..]);
      assert s[..TokenLength(s)] == [s[0]] + s[1..][..TokenLength(s[1..])];
    }
  }

  /** Length of the longest prefix made only of separators. */
  function SeparatorRunLength(s: string): nat {
    if s == [] || !IsSeparator(s[0]) then 0 else 1 + SeparatorRunLength(s[1..])
  }

  lemma {:induction false} SeparatorRunLengthSpec(s: string)
    ensures SeparatorRunLength(s) <= |s|
    ensures forall i :: 0 <= i < SeparatorRunLength(s) ==> IsSeparator(s[i])
    ensures SeparatorRunLength(s) < |s| ==> !IsSeparator(s[SeparatorRunLength(s)])
  {
    if s != [] && IsSeparator(s[0]) {
      SeparatorRunLengthSpec(s[1..]);
    }
  }

  /** `s.split(/[,\s]+/)`: the pieces between maximal runs of separators. A
      leading or trailing run yields an empty first or last piece, and the
      empty string splits into one empty piece. */
  function SplitTags(s: string): (r: seq<string>)
    ensures |r| >= 1
    ensures forall i :: 0 <= i < |r| ==> NoSeparator(r[i])
    decreases |s|
  {
    TokenLengthSpec(s);
    var n := TokenLength(s);
    if n == |s| then [s] else [s[..n]] + SplitTags(AfterSeparators(s))
  }

  /** What follows the first token and the separator run after it. */
  function AfterSeparators(s: string): (r: string)
    requires TokenLength(s) < |s|
    ensures |r| < |s|
  {
    TokenLengthSpec(s);
    SeparatorRunLengthSpec(s[TokenLength(s)..]);
    var rest := s[TokenLength(s)..];
    rest[SeparatorRunLength(rest)..]
  }

  /** `.map((tag) => tag.trim())`. */
  function TrimAll(ts: seq<string>): (r: seq<string>)
    ensures |r| == |ts| && forall i :: 0 <= i < |ts| ==> r[i] == Trim(ts[i])
  {
    if ts == [] then [] else [Trim(ts[0])] + TrimAll(ts[1..])
  }

  /** `.filter((tag) => tag.length > 0)`. */
  function NonEmpty(ts: seq<string>): (r: seq<string>)
    ensures forall i :: 0 <= i < |r| ==> r[i] != [] && r[i] in ts
    ensures forall t :: t in r <==> t in ts && t != []
    ensures |r| <= |ts|
  {
    if ts == [] then []
    else if ts[0] == [] then NonEmpty(ts[1..])
    else [ts[0]] + NonEmpty(ts[1..])
  }

  /** The tag tokenizer of both forms. */
  function ParseTags(text: string): seq<string> {
    NonEmpty(TrimAll(SplitTags(text)))
  }

  /** The text with every separator removed. */
  function RemoveSeparators(s: string): (r: string) {
    if s == [] then []
    else (if IsSeparator(s[0]) then [] else [s[0]]) + RemoveSeparators(s[1..])
  }

  /** The tags joined end to end. */
  function Concat(ts: seq<string>): string {
    if ts == [] then [] else ts[0] + Concat(ts[1..])
  }

  lemma {:induction false} RemoveSeparatorsAppend(a: string, b: string)
    ensures RemoveSeparators(a + b) == RemoveSeparators(a) + RemoveSeparators(b)
  {
    if a != [] {
      assert (a + b)[0] == a[0];
      assert (a + b)[1..] == a[1..] + b;
      RemoveSeparatorsAppend(a[1..], b);
    } else {
      assert a + b == b;
    }
  }

  lemma {:induction false} RemoveSeparatorsOfToken(s: string)
    requires NoSeparator(s)
    ensures RemoveSeparators(s) == s
  {
    if s != [] {
      assert !IsSeparator(s[0]);
      RemoveSeparatorsOfToken(s[1..]);
    }
  }

  lemma {:induction false} RemoveSeparatorsOfRun(s: string)
    requires forall i :: 0 <= i < |s| ==> IsSeparator(s[i])
    ensures RemoveSeparators(s) == []
  {
    if s != [] {
      assert IsSeparator(s[0]);
      RemoveSeparatorsOfRun(s[1..]);
    }
  }

  lemma {:induction false} ConcatSplitStep(s: string)
    requires TokenLength(s) < |s|
    ensures Concat(SplitTags(s)) == s[..TokenLength(s)] + Concat(SplitTags(AfterSeparators(s)))
  {
    TokenLengthSpec(s);
    var r := SplitTags(s);
    assert r[0] == s[..TokenLength(s)] && r[1..] == SplitTags(AfterSeparators(s));
  }

  lemma {:induction false} RemoveSeparatorsStep(s: string)
    requires TokenLength(s) < |s|
    ensures RemoveSeparators(s) == s[..TokenLength(s)] + RemoveSeparators(AfterSeparators(s))
  {
    TokenLengthSpec(s);
    var n := TokenLength(s);
    var rest := s[n..];
    SeparatorRunLengthSpec(rest);
    var m := SeparatorRunLength(rest);
    var tail := rest[m..];
    assert AfterSeparators(s) == tail;
    assert RemoveSeparators(s) == s[..n] + RemoveSeparators(tail) by {
      RemoveSeparatorsOfToken(s[..n]);
      assert rest == rest[..m] + tail;
      assert s == s[..n] + rest;
      RemoveSeparatorsOfRun(rest[..m]);
      RemoveSeparatorsAppend(rest[..m], tail);
      RemoveSeparatorsAppend(s[..n], rest[..m] + tail);
    }
  }

  /** Splitting loses nothing but separators. */
  lemma {:induction false} SplitTagsKeepsText(s: string)
    ensures Concat(SplitTags(s)) == RemoveSeparators(s)
    decreases |s|
  {
    TokenLengthSpec(s);
    if TokenLength(s) == |s| {
      RemoveSeparatorsOfToken(s[..|s|]);
      assert s[..|s|] == s;
      assert SplitTags(s) == [s];
      assert Concat(SplitTags(s)) == s + Concat([]);
    } else {
      ConcatSplitStep(s);
      RemoveSeparatorsStep(s);
      SplitTagsKeepsText(AfterSeparators(s));
    }
  }

  /** A token has no white space, so trimming it changes nothing. */
  lemma {:induction false} NoSeparatorTrim(t: string)
    requires NoSeparator(t)
    ensures Trim(t) == t
  {
    assert HasNoSpace(t) by {
      forall i | 0 <= i < |t| ensures !IsSpace(t[i]) { assert !IsSeparator(t[i]); }
    }
    TrimNoSpace(t);
  }

  lemma {:induction false} TrimAllNoSeparator(ts: seq<string>)
    requires forall i :: 0 <= i < |ts| ==> NoSeparator(ts[i])
    ensures TrimAll(ts) == ts
  {
    forall i | 0 <= i < |ts| ensures TrimAll(ts)[i] == ts[i] {
      NoSeparatorTrim(ts[i]);
    }
  }

  /** The filter works piece by piece: it keeps a non-empty piece, drops an
      empty one, and keeps the order. */
  lemma {:induction false} NonEmptyAppend(a: seq<string>, b: seq<string>)
    ensures NonEmpty(a + b) == NonEmpty(a) + NonEmpty(b)
    ensures |a| == 1 ==> NonEmpty(a) == (if a[0] == [] then [] else a)
  {
    if a != [] {
      assert (a + b)[0] == a[0] && (a + b)[1..] == a[1..] + b;
      NonEmptyAppend(a[1..], b);
    } else {
      assert a + b == b;
    }
  }

  lemma {:induction false} NonEmptyKeepsText(ts: seq<string>)
    ensures Concat(NonEmpty(ts)) == Concat(ts)
  {
    if ts != [] {
      NonEmptyKeepsText(ts[1..]);
    }
  }

  /** Every parsed tag is non-empty, contains no comma or white space (so its
      `trim` changed nothing), and the tags joined end to end are the input
      with its separators removed. */
  lemma {:induction false} ParseTagsSpec(text: string)
    ensures forall i :: 0 <= i < |ParseTags(text)| ==>
      ParseTags(text)[i] != [] && NoSeparator(ParseTags(text)[i]) && Trim(ParseTags(text)[i]) == ParseTags(text)[i]
    ensures Concat(ParseTags(text)) == RemoveSeparators(text)
  {
    var pieces := SplitTags(text);
    TrimAllNoSeparator(pieces);
    var tags := NonEmpty(pieces);
    assert ParseTags(text) == tags;
    NonEmptyKeepsText(pieces);
    SplitTagsKeepsText(text);
    forall i | 0 <= i < |tags|
      ensures tags[i] != [] && NoSeparator(tags[i]) && Trim(tags[i]) == tags[i]
    {
      assert tags[i] in pieces;
      NoSeparatorTrim(tags[i]);
    }
  }

  lemma {:induction false} ConcatEmpty(ts: seq<string>)
    requires forall i :: 0 <= i < |ts| ==> ts[i] != []
    ensures Concat(ts) == [] <==> ts == []
  {
    if ts != [] {
      assert |Concat(ts)| >= |ts[0]| > 0;
    }
  }

  lemma {:induction false} RemoveSeparatorsEmpty(s: string)
    ensures RemoveSeparators(s) == [] <==> forall i :: 0 <= i < |s| ==> IsSeparator(s[i])
  {
    if s != [] {
      RemoveSeparatorsEmpty(s[1..]);
      if !IsSeparator(s[0]) {
        assert RemoveSeparators(s)[0] == s[0];
      } else {
        assert forall i :: 1 <= i < |s| ==> s[i] == s[1..][i - 1];
      }
    }
  }

  /** The tag check `parsedTags.length === 0` fails exactly when the tag text
      is made of commas and white space only. */
  lemma {:induction false} ParseTagsEmptyIff(text: string)
    ensures ParseTags(text) == [] <==> forall i :: 0 <= i < |text| ==> IsSeparator(text[i])
  {
    ParseTagsSpec(text);
    ConcatEmpty(ParseTags(text));
    RemoveSeparatorsEmpty(text);
  }

  lemma {:induction false} TokenLengthOf(w: string, rest: string)
    requires NoSeparator(w)
    requires rest == [] || IsSeparator(rest[0])
    ensures TokenLength(w + rest) == |w|
  {
    if w != [] {
      assert !IsSeparator(w[0]);
      assert (w + rest)[1..] == w[1..] + rest;
      TokenLengthOf(w[1..], rest);
    } else {
      assert w + rest == rest;
    }
  }

  lemma {:induction false} RunLengthOf(sep: string, rest: string)
    requires forall i :: 0 <= i < |sep| ==> IsSeparator(sep[i])
    requires rest == [] || !IsSeparator(rest[0])
    ensures SeparatorRunLength(sep + rest) == |sep|
  {
    if sep != [] {
      assert IsSeparator(sep[0]);
      assert (sep + rest)[1..] == sep[1..] + rest;
      RunLengthOf(sep[1..], rest);
    } else {
      assert sep + rest == rest;
    }
  }

  /** One step of the split: a token, then a non-empty separator run. */
  lemma {:induction false} SplitTagsOf(w: string, sep: string, rest: string)
    requires NoSeparator(w) && |sep| >= 1
    requires forall i :: 0 <= i < |sep| ==> IsSeparator(sep[i])
    requires rest == [] || !IsSeparator(rest[0])
    ensures SplitTags(w + (sep + rest)) == [w] + SplitTags(rest)
  {
    var s := w + (sep + rest);
    TokenLengthOf(w, sep + rest);
    assert s[..|w|] == w && s[|w|..] == sep + rest;
    RunLengthOf(sep, rest);
    assert (sep + rest)[|sep|..] == rest;
  }

  lemma {:induction false} SplitTagsOfToken(w: string)
    requires NoSeparator(w)
    ensures SplitTags(w) == [w]
  {
    TokenLengthOf(w, []);
    assert w + [] == w;
  }

  lemma {:induction false} SplitTagsExample(w1: string, w2: string, w3: string)
    requires NoSeparator(w1) && NoSeparator(w2) && NoSeparator(w3)
    requires w2 != [] && w3 != []
    ensures SplitTags(w1 + (",  " + (w2 + ("   " + (w3 + ","))))) == [w1, w2, w3, ""]
  {
    var t3 := w3 + ",";
    assert SplitTags(t3) == [w3, ""] by {
      SplitTagsOfToken("");
      SplitTagsOf(w3, ",", "");
      assert "," + "" == ",";
    }
    var t2 := w2 + ("   " + t3);
    assert SplitTags(t2) == [w2, w3, ""] by {
      SplitTagsOf(w2, "   ", t3);
    }
    SplitTagsOf(w1, ",  ", t2);
  }

  /** Runs of commas and white space between words separate them, and a
      trailing comma leaves no empty tag: "Math,  Algebra   Functions," gives
      the three words. */
  lemma {:induction false} ParseTagsExample(w1: string, w2: string, w3: string)
    requires NoSeparator(w1) && NoSeparator(w2) && NoSeparator(w3)
    requires w1 != [] && w2 != [] && w3 != []
    ensures ParseTags(w1 + (",  " + (w2 + ("   " + (w3 + ","))))) == [w1, w2, w3]
  {
    var pieces := [w1, w2, w3, ""];
    SplitTagsExample(w1, w2, w3);
    assert forall i :: 0 <= i < |pieces| ==> NoSeparator(pieces[i]);
    TrimAllNoSeparator(pieces);
    assert pieces[3..] == [""] && pieces[2..] == [w3, ""] && pieces[1..] == [w2, w3, ""];
    assert NonEmpty([""]) == [];
    assert NonEmpty([w3, ""]) == [w3];
    assert NonEmpty([w2, w3, ""]) == [w2, w3];
  }

  /** The message set by each failed check. */
  datatype CheckError = QuestionRequired | SolutionRequired | ContributorRequired | TagRequired {
    function Message(): string {
      match this
      case QuestionRequired => "Question is required"
      case SolutionRequired => "Solution is required"
      case ContributorRequired => "Contributor name is required"
      case TagRequired => "At least one tag is required"
    }
  }

  /** The checks of `handleSubmit`, in order question, solution, contributor,
      tags; the first failure stops. On success, the draft to send: trimmed
      question, solution and contributor, the parsed tags and the answer, with
      no `id` or `createdAt`. */
  function PreCheck(question: string, solution: string, contributor: string,
                    tagsText: string, answer: Answer): (r: Result<Draft, CheckError>)
    ensures r == Failure(QuestionRequired) <==> IsBlank(question)
    ensures r == Failure(SolutionRequired) <==> !IsBlank(question) && IsBlank(solution)
    ensures r == Failure(ContributorRequired) <==>
      !IsBlank(question) && !IsBlank(solution) && IsBlank(contributor)
    ensures r == Failure(TagRequired) <==>
      && !IsBlank(question) && !IsBlank(solution) && !IsBlank(contributor)
      && forall i :: 0 <= i < |tagsText| ==> IsSeparator(tagsText[i])
    ensures r.Success? ==>
      && r.value.question == Trim(question) && r.value.question != []
      && r.value.solution == Trim(solution) && r.value.solution != []
      && r.value.contributor == Trim(contributor) && r.value.contributor != []
      && r.value.tags == ParseTags(tagsText) && r.value.tags != []
      && r.value.answer == answer
  {
    TrimEmptyIffBlank(question);
    TrimEmptyIffBlank(solution);
    TrimEmptyIffBlank(contributor);
    ParseTagsEmptyIff(tagsText);
    if Trim(question) == [] then Failure(QuestionRequired)
    else if Trim(solution) == [] then Failure(SolutionRequired)
    else if Trim(contributor) == [] then Failure(ContributorRequired)
    else
      var tags := ParseTags(tagsText);
      if |tags| == 0 then Failure(TagRequired)
      else Success(Draft(Trim(question), Trim(solution), answer, tags, Trim(contributor)))
  }

  /** A draft that passes the client checks meets every minimum of the server
      schema (each tag included); the server then accepts it exactly when the
      maxima hold too, which the client does not check. */
  lemma PreCheckedDraftVerdict(question: string, solution: string, contributor: string,
                               tagsText: string, answer: Answer, d: Draft)
    requires PreCheck(question, solution, contributor, tagsText, answer) == Success(d)
    ensures Validations.Minima(d)
    ensures Validations.QuestionSchema(Validations.ToJson(d)).Success? <==> Validations.Maxima(d)
  {
    Validations.DraftRoundTrip(d);
  }
}
