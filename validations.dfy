/** The server-side schemas: `questionSchema` for a submitted question and
    `fileUploadSchema` for an image batch. Only acceptance and the set of
    failing fields are modelled; issue wording is not. Lengths are counted
    on the raw strings, without trimming. */
module Validations {
  import opened Wrappers
  import opened JsText
  import opened Types

  /** A parsed JSON value, as far as the schema looks at it. `JOther` stands for
      numbers, booleans, `null` and a missing member (`undefined`). */
  datatype Json = JStr(s: string) | JArr(items: seq<Json>) | JObj(fields: map<string, Json>) | JOther

  const MaxBodyLength: nat := 50000
  const MaxTags: nat := 10
  const MaxTagLength: nat := 50
  const MaxContributorLength: nat := 100
  const MaxFiles: nat := 10
  const MaxFileSize: nat := 10 * 1024 * 1024

  /** Where a schema issue is reported: the body as a whole (not an object) or one field. */
  datatype Field = WholeBody | QuestionField | SolutionField | AnswerField | TagsField | ContributorField

  /** Property access on a JSON value; a missing member reads as `undefined`. */
  function Member(v: Json, key: string): Json {
    if v.JObj? && key in v.fields then v.fields[key] else JOther
  }

  /** `z.string().min(1).max(max)`. */
  predicate StringWithin(v: Json, max: nat) {
    v.JStr? && 1 <= |v.s| <= max
  }

  /** `z.enum(['A', 'B', 'C', 'D'])`. */
  predicate AnswerRule(v: Json) {
    v.JStr? && AnswerOf(v.s).Some?
  }

  /** `z.array(z.string().min(1).max(50)).min(1).max(10)`. */
  predicate TagsRule(v: Json) {
    && v.JArr?
    && 1 <= |v.items| <= MaxTags
    && forall i :: 0 <= i < |v.items| ==> StringWithin(v.items[i], MaxTagLength)
  }

  /** The rule for one field of a body that is an object. */
  predicate FieldRule(body: Json, f: Field) {
    match f
    case WholeBody => body.JObj?
    case QuestionField => StringWithin(Member(body, "question"), MaxBodyLength)
    case SolutionField => StringWithin(Member(body, "solution"), MaxBodyLength)
    case AnswerField => AnswerRule(Member(body, "answer"))
    case TagsField => TagsRule(Member(body, "tags"))
    case ContributorField => StringWithin(Member(body, "contributor"), MaxContributorLength)
  }

  const FieldOrder: seq<Field> := [QuestionField, SolutionField, AnswerField, TagsField, ContributorField]

  function FailingAmong(body: Json, fs: seq<Field>): (r: seq<Field>)
    ensures forall f :: f in r <==> f in fs && !FieldRule(body, f)
  {
    if fs == [] then []
    else (if FieldRule(body, fs[0]) then [] else [fs[0]]) + FailingAmong(body, fs[1..])
  }

  /** The fields the schema reports: the whole body when it is not an object,
      otherwise every field whose rule fails (all of them, not just the first). */
  function Issues(body: Json): (r: seq<Field>)
    ensures !body.JObj? ==> r == [WholeBody]
    ensures body.JObj? ==> forall f :: f in r <==> !FieldRule(body, f)
  {
    if !body.JObj? then [WholeBody] else FailingAmong(body, FieldOrder)
  }

  /** The strings of a JSON array of strings. */
  function Strings(items: seq<Json>): (r: seq<string>)
    requires forall i :: 0 <= i < |items| ==> items[i].JStr?
    ensures |r| == |items| && forall i :: 0 <= i < |items| ==> r[i] == items[i].s
  {
    if items == [] then [] else [items[0].s] + Strings(items[1..])
  }

  /** The schema accepts: the body is an object and all five field rules hold. */
  predicate Accepts(body: Json) {
    && body.JObj?
    && StringWithin(Member(body, "question"), MaxBodyLength)
    && StringWithin(Member(body, "solution"), MaxBodyLength)
    && AnswerRule(Member(body, "answer"))
    && TagsRule(Member(body, "tags"))
    && StringWithin(Member(body, "contributor"), MaxContributorLength)
  }

  /** A body is rejected exactly when some issue is reported. */
  lemma IssuesIffRejected(body: Json)
    ensures Issues(body) == [] <==> Accepts(body)
  {
    if body.JObj? {
      if !FieldRule(body, QuestionField) { assert QuestionField in Issues(body); }
      else if !FieldRule(body, SolutionField) { assert SolutionField in Issues(body); }
      else if !FieldRule(body, AnswerField) { assert AnswerField in Issues(body); }
      else if !FieldRule(body, TagsField) { assert TagsField in Issues(body); }
      else if !FieldRule(body, ContributorField) { assert ContributorField in Issues(body); }
      else {
        if Issues(body) != [] {
          var f := Issues(body)[0];
          assert !FieldRule(body, f);
          match f { case _ => }
        }
      }
    }
  }

  /** `questionSchema.parse`: a draft built from the five validated members
      (unknown members are dropped), or the list of failing fields. */
  function QuestionSchema(body: Json): (r: Result<Draft, seq<Field>>)
    ensures r.Success? <==> Accepts(body)
    ensures r.Failure? ==> r.error == Issues(body) && r.error != []
    ensures r.Success? ==>
      && JStr(r.value.question) == Member(body, "question")
      && JStr(r.value.solution) == Member(body, "solution")
      && JStr(Symbol(r.value.answer)) == Member(body, "answer")
      && JArr(TagValues(r.value.tags)) == Member(body, "tags")
      && JStr(r.value.contributor) == Member(body, "contributor")
  {
    IssuesIffRejected(body);
    if !Accepts(body) then Failure(Issues(body))
    else
      var tags := Member(body, "tags").items;
      StringsRoundTrip(tags);
      AnswerRoundTrip(A, Member(body, "answer").s);
      Success(Draft(Member(body, "question").s, Member(body, "solution").s,
                    AnswerOf(Member(body, "answer").s).value,
                    Strings(tags), Member(body, "contributor").s))
  }

  lemma StringsRoundTrip(items: seq<Json>)
    requires forall i :: 0 <= i < |items| ==> items[i].JStr?
    ensures TagValues(Strings(items)) == items
  {
  }

  /** JSON encoding of a list of strings. */
  function TagValues(tags: seq<string>): (r: seq<Json>)
    ensures |r| == |tags| && forall i :: 0 <= i < |tags| ==> r[i] == JStr(tags[i])
  {
    if tags == [] then [] else [JStr(tags[0])] + TagValues(tags[1..])
  }

  /** The JSON body a client sends for a draft (`JSON.stringify(questionData)`). */
  function ToJson(d: Draft): Json {
    JObj(map["question" := JStr(d.question), "solution" := JStr(d.solution),
             "answer" := JStr(Symbol(d.answer)), "tags" := JArr(TagValues(d.tags)),
             "contributor" := JStr(d.contributor)])
  }

  /** The schema's lower bounds, stated on a draft: nothing empty. */
  predicate Minima(d: Draft) {
    && 1 <= |d.question| && 1 <= |d.solution| && 1 <= |d.tags| && 1 <= |d.contributor|
    && forall i :: 0 <= i < |d.tags| ==> 1 <= |d.tags[i]|
  }

  /** The schema's upper bounds, stated on a draft. */
  predicate Maxima(d: Draft) {
    && |d.question| <= MaxBodyLength && |d.solution| <= MaxBodyLength
    && |d.tags| <= MaxTags && |d.contributor| <= MaxContributorLength
    && forall i :: 0 <= i < |d.tags| ==> |d.tags[i]| <= MaxTagLength
  }

  predicate WithinLimits(d: Draft) {
    Minima(d) && Maxima(d)
  }

  /** Encoding a draft and validating it gives the draft back exactly when the
      draft is within the schema's limits, and otherwise names a failing field. */
  lemma DraftRoundTrip(d: Draft)
    ensures QuestionSchema(ToJson(d)).Success? <==> WithinLimits(d)
    ensures WithinLimits(d) ==> QuestionSchema(ToJson(d)) == Success(d)
  {
    var body := ToJson(d);
    AnswerRoundTrip(d.answer, Symbol(d.answer));
    assert Member(body, "question") == JStr(d.question);
    assert Member(body, "solution") == JStr(d.solution);
    assert Member(body, "answer") == JStr(Symbol(d.answer));
    assert Member(body, "tags") == JArr(TagValues(d.tags));
    assert Member(body, "contributor") == JStr(d.contributor);
    if WithinLimits(d) {
      var r := QuestionSchema(body);
      assert Strings(TagValues(d.tags)) == d.tags;
      assert r.value.answer == d.answer;
    }
  }

  /** Length checks apply to raw text: a question of white space alone passes. */
  lemma BlankQuestionAccepted()
    ensures QuestionSchema(ToJson(Draft(" ", "x", A, ["t"], "c"))).Success?
  {
    var d := Draft(" ", "x", A, ["t"], "c");
    assert |d.tags[0]| == 1;
    assert WithinLimits(d);
    DraftRoundTrip(d);
  }

  /** One file of `fileUploadSchema`: at most 10 MiB and an `image/` MIME type. */
  predicate FileRule(f: FileMeta) {
    f.size <= MaxFileSize && StartsWith(f.mime, "image/")
  }

  /** `fileUploadSchema`: one to ten files, each passing the file rule. */
  predicate FileBatchRule(files: seq<FileMeta>) {
    1 <= |files| <= MaxFiles && forall i :: 0 <= i < |files| ==> FileRule(files[i])
  }
}
