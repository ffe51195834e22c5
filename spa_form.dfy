/** The question form of the single-page application
    (`src/components/QuestionForm.tsx`): the same checks as the server-rendered
    form, but the answer is typed as one of the four symbols and the insert
    goes straight to the database client. `handleSubmit` is split at its
    `await` into `Submit` and `Finish`. */
module SpaForm {
  import opened Wrappers
  import opened Types
  import opened SubmitChecks
  import SpaStorage
  import Storage

  const DefaultFailure: string := "Failed to submit question"
  const SuccessMessage: string := "Question submitted successfully!"

  /** How `insertQuestion` settles: the inserted row (its `id` and
      `created_at`), a database error, which it rethrows with a prefixed
      message, or some other thrown error with its message (`None` when the
      thrown value is not an `Error`). */
  datatype InsertResult =
    | Inserted(id: Option<string>, createdAt: Option<nat>)
    | DbError(dbMessage: string)
    | Threw(message: Option<string>)

  /** The error shown for a failed insert. */
  function FailureMessage(res: InsertResult): (r: string)
    requires !res.Inserted?
    ensures res.DbError? ==> r == "Failed to insert question: " + res.dbMessage
    ensures res.Threw? && res.message.Some? ==> r == res.message.value
    ensures res.Threw? && res.message.None? ==> r == DefaultFailure
  {
    match res
    case DbError(m) => "Failed to insert question: " + m
    case Threw(m) => m.GetOr(DefaultFailure)
  }

  class Form {
    var question: string
    var solution: string
    var answer: Answer
    /** The raw tag text. */
    var tags: string
    var contributor: string
    var isSubmitting: bool
    var error: string
    var success: string

    constructor ()
      ensures question == "" && solution == "" && answer == A && tags == "" && contributor == ""
      ensures !isSubmitting && error == "" && success == ""
    {
      question, solution, answer, tags, contributor := "", "", A, "", "";
      isSubmitting, error, success := false, "", "";
    }

    /** The checks of `handleSubmit` on the current fields. */
    function Checks(): (r: Result<Draft, CheckError>)
      reads this
      ensures r.Success? ==> r.value.answer == answer
    {
      PreCheck(question, solution, contributor, tags, answer)
    }

    /** `handleSubmit` up to `insertQuestion`: clears both messages, then
        either sets the first failed check's message and stops, or marks the
        form as submitting and returns the draft to insert. */
    method Submit() returns (draft: Option<Draft>)
      modifies this
      ensures question == old(question) && solution == old(solution) && answer == old(answer)
      ensures tags == old(tags) && contributor == old(contributor)
      ensures var c := Checks();
        && (c.Failure? ==>
              draft == None && error == c.error.Message() && success == "" && isSubmitting == old(isSubmitting))
        && (c.Success? ==> draft == Some(c.value) && error == "" && success == "" && isSubmitting)
    {
      var checked := Checks();
      error := "";
      success := "";
      if checked.Failure? {
        error := checked.error.Message();
        return None;
      }
      isSubmitting := true;
      return Some(checked.value);
    }

    /** `handleSubmit` after `insertQuestion` settles: on success the question
        is cached with the row's id and timestamp; if that write goes
        through, the success message is set and the fields are reset, and if
        it throws, its message becomes the error and the fields are kept,
        although the question was inserted. On a failed insert only the
        error message is set. Either way the form stops submitting. */
    method Finish(draft: Draft, res: InsertResult, store: SpaStorage.SpaQuestionStore,
                  freshId: string, now: nat, write: Storage.Write)
      modifies this, store
      ensures !isSubmitting
      ensures res.Inserted? && write.Written? ==>
        && (var saved := Storage.Complete(Question(res.id, draft, res.createdAt), freshId, now);
            store.GetQuestions() == old(store.GetQuestions()) + [saved])
        && success == SuccessMessage && error == old(error)
        && question == "" && solution == "" && answer == A && tags == "" && contributor == ""
      ensures res.Inserted? && write.WriteThrew? ==>
        && store.slot == old(store.slot)
        && error == write.message && success == old(success)
        && question == old(question) && solution == old(solution) && answer == old(answer)
        && tags == old(tags) && contributor == old(contributor)
      ensures !res.Inserted? ==>
        && store.slot == old(store.slot)
        && error == FailureMessage(res) && success == old(success)
        && question == old(question) && solution == old(solution) && answer == old(answer)
        && tags == old(tags) && contributor == old(contributor)
    {
      if res.Inserted? {
        var thrown := store.SaveQuestion(Question(res.id, draft, res.createdAt), freshId, now, write);
        if thrown.Some? {
          error := thrown.value;
        } else {
          success := SuccessMessage;
          question, solution, answer, tags, contributor := "", "", A, "", "";
        }
      } else {
        error := FailureMessage(res);
      }
      isSubmitting := false;
    }
  }
}
