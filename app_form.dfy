/** The question form of the server-rendered application
    (`app/components/QuestionForm.tsx`): its state, the answer selector, and
    `handleSubmit`, which is split at its one `await` into `Submit` (the checks
    up to the request) and `Finish` (what happens once the request settles). */
module AppForm {
  import opened Wrappers
  import opened Types
  import opened JsText
  import opened SubmitChecks
  import Storage

  const DefaultFailure: string := "Failed to submit question"
  const SuccessMessage: string := "Question submitted successfully!"

  /** How the POST to `/api/questions` settles: an ok response whose body is
      the inserted row (its `id` and `created_at`), a response that is not ok
      with the `error` field of its body, or a thrown error with its message
      (`None` when the thrown value is not an `Error`). */
  datatype Response =
    | Ok(id: Option<string>, createdAt: Option<nat>)
    | NotOk(error: Option<string>)
    | Threw(message: Option<string>)

  /** The error shown for a failed request: the body's `error` when it is a
      non-empty string, the thrown message, or the default text. */
  function FailureMessage(resp: Response): (r: string)
    requires !resp.Ok?
    ensures resp.NotOk? ==> r != []
    ensures resp.NotOk? && resp.error.Some? && resp.error.value != "" ==> r == resp.error.value
    ensures resp.Threw? && resp.message.Some? ==> r == resp.message.value
    ensures (resp.NotOk? && resp.error.GetOr("") == "") || (resp.Threw? && resp.message.None?) ==>
      r == DefaultFailure
  {
    match resp
    case NotOk(e) => if e.Some? && e.value != "" then e.value else DefaultFailure
    case Threw(m) => m.GetOr(DefaultFailure)
  }

  class Form {
    var question: string
    var solution: string
    /** The answer select's value, a string in this form. */
    var answer: string
    /** The raw tag text. */
    var tags: string
    var contributor: string
    var isSubmitting: bool
    var error: string
    var success: string

    /** The answer is always one of the four symbols. */
    predicate Valid()
      reads this
    {
      AnswerOf(answer).Some?
    }

    constructor ()
      ensures Valid()
      ensures question == "" && solution == "" && answer == "A" && tags == "" && contributor == ""
      ensures !isSubmitting && error == "" && success == ""
    {
      question, solution, answer, tags, contributor := "", "", "A", "", "";
      isSubmitting, error, success := false, "", "";
    }

    /** The answer selector's `onChange`: only "A", "B", "C" or "D" is taken;
        anything else leaves the answer as it was. */
    method SelectAnswer(value: string)
      requires Valid()
      modifies this
      ensures Valid()
      ensures AnswerOf(value).Some? ==> answer == value
      ensures AnswerOf(value).None? ==> answer == old(answer)
      ensures question == old(question) && solution == old(solution) && tags == old(tags)
      ensures contributor == old(contributor)
      ensures isSubmitting == old(isSubmitting) && error == old(error) && success == old(success)
    {
      if value == "A" || value == "B" || value == "C" || value == "D" {
        answer := value;
      }
    }

    /** The checks of `handleSubmit` on the current fields. */
    function Checks(): (r: Result<Draft, CheckError>)
      requires Valid()
      reads this
      ensures r.Success? ==> Symbol(r.value.answer) == answer
    {
      AnswerRoundTrip(AnswerOf(answer).value, answer);
      PreCheck(question, solution, contributor, tags, AnswerOf(answer).value)
    }

    /** `handleSubmit` up to the request: clears both messages, then either
        sets the first failed check's message and stops, or marks the form as
        submitting and returns the draft to send. The fields are untouched. */
    method Submit() returns (draft: Option<Draft>)
      requires Valid()
      modifies this
      ensures Valid()
      ensures question == old(question) && solution == old(solution) && answer == old(answer)
      ensures tags == old(tags) && contributor == old(contributor)
      ensures var c := Checks();
        && (c.Failure? ==>
              draft == None && error == c.error.Message() && success == "" && isSubmitting == old(isSubmitting))
        && (c.Success? ==> draft == Some(c.value) && error == "" && success == "" && isSubmitting)
    {
      var checked := Checks();
      error := "";
      success := "";
      if checked.Failure? {
        error := checked.error.Message();
        return None;
      }
      isSubmitting := true;
      return Some(checked.value);
    }

    /** `handleSubmit` after the request settles. On an ok response the
        question is cached with the row's id and timestamp (missing ones
        filled from `freshId` and `now`); if that write goes through, the
        success message is set and the fields are reset, and if it throws,
        its message becomes the error and the fields are kept, although the
        question was inserted. Otherwise only the error message is set and
        the cache is not touched. Either way the form stops submitting. */
    method Finish(draft: Draft, resp: Response, store: Storage.QuestionStore,
                  freshId: string, now: nat, write: Storage.Write)
      requires Valid()
      modifies this, store
      ensures Valid() && !isSubmitting
      ensures resp.Ok? && !(store.browser && write.WriteThrew?) ==>
        && (store.browser ==>
              var saved := Storage.Complete(Question(resp.id, draft, resp.createdAt), freshId, now);
              store.GetQuestions() == old(store.GetQuestions()) + [saved])
        && (!store.browser ==> store.slot == old(store.slot))
        && success == SuccessMessage && error == old(error)
        && question == "" && solution == "" && answer == "A" && tags == "" && contributor == ""
      ensures resp.Ok? && store.browser && write.WriteThrew? ==>
        && store.slot == old(store.slot)
        && error == write.message && success == old(success)
        && question == old(question) && solution == old(solution) && answer == old(answer)
        && tags == old(tags) && contributor == old(contributor)
      ensures !resp.Ok? ==>
        && store.slot == old(store.slot)
        && error == FailureMessage(resp) && success == old(success)
        && question == old(question) && solution == old(solution) && answer == old(answer)
        && tags == old(tags) && contributor == old(contributor)
    {
      if resp.Ok? {
        var thrown := store.SaveQuestion(Question(resp.id, draft, resp.createdAt), freshId, now, write);
        if thrown.Some? {
          error := thrown.value;
        } else {
          success := SuccessMessage;
          question, solution, answer, tags, contributor := "", "", "A", "", "";
        }
      } else {
        error := FailureMessage(resp);
      }
      isSubmitting := false;
    }
  }
}
