/** The shared record shapes of the application: a question, the cached form
    of a question, an upload response, and the browser `File` attributes the
    upload code reads. */
module Types {
  import opened Wrappers

  /** The correct-answer choice, restricted to four symbols. */
  datatype Answer = A | B | C | D

  /** The wire spelling of an answer. */
  function Symbol(a: Answer): string {
    match a
    case A => "A"
    case B => "B"
    case C => "C"
    case D => "D"
  }

  /** Reads an answer symbol; only the four one-letter strings name an answer. */
  function AnswerOf(s: string): (r: Option<Answer>)
    ensures r.Some? <==> s == "A" || s == "B" || s == "C" || s == "D"
  {
    if s == "A" then Some(A)
    else if s == "B" then Some(B)
    else if s == "C" then Some(C)
    else if s == "D" then Some(D)
    else None
  }

  /** Spelling an answer and reading it back gives the same answer, and a
      string that reads as an answer is that answer's spelling. */
  lemma AnswerRoundTrip(a: Answer, s: string)
    ensures AnswerOf(Symbol(a)) == Some(a)
    ensures AnswerOf(s).Some? ==> Symbol(AnswerOf(s).value) == s
  {
  }

  /** The five user-supplied fields of a question (the source's
      `Omit<Question, 'id' | 'createdAt'>`). */
  datatype Draft = Draft(question: string, solution: string, answer: Answer,
                         tags: seq<string>, contributor: string)

  /** `Question`: a draft whose `id` and `createdAt` may be missing.
      `createdAt` is a timestamp; `None` stands for a missing or empty value. */
  datatype Question = Question(id: Option<string>, draft: Draft, createdAt: Option<nat>)

  /** `LocalStorageQuestion`: a question with both `id` and `createdAt` present. */
  datatype LocalQuestion = LocalQuestion(id: string, draft: Draft, createdAt: nat)

  /** A cached question is also a `Question` (`LocalStorageQuestion extends Question`). */
  function AsQuestion(lq: LocalQuestion): (q: Question)
    ensures q.id.Some? && q.createdAt.Some?
    ensures q.id.value == lq.id && q.createdAt.value == lq.createdAt && q.draft == lq.draft
  {
    Question(Some(lq.id), lq.draft, Some(lq.createdAt))
  }

  /** `UploadResponse`: `errFiles` and `succMap` are both optional. */
  datatype UploadResponse = UploadResponse(msg: string, code: int,
                                           errFiles: Option<seq<string>>,
                                           succMap: Option<map<string, string>>)

  /** The attributes of a browser `File` the upload code reads; `size` is in bytes
      and `mime` is the (possibly empty) MIME type. */
  datatype FileMeta = FileMeta(name: string, size: nat, mime: string)

  function Names(files: seq<FileMeta>): (r: seq<string>)
    ensures |r| == |files| && forall i :: 0 <= i < |files| ==> r[i] == files[i].name
  {
    if files == [] then [] else [files[0].name] + Names(files[1..])
  }
}
