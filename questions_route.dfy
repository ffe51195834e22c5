/** `POST /api/questions` of the server-rendered application
    (`app/api/questions/route.ts`): parse the body, validate it, create the
    database client, insert the five validated fields, and answer. */
module QuestionsRoute {
  import opened Wrappers
  import opened Types
  import opened Validations
  import SubmitChecks

  const ValidationFailed: string := "Validation failed"
  const InsertFailed: string := "Failed to insert question into database"
  const SubmitFailed: string := "Failed to submit question"

  /** How the insert settles: the inserted row, an `error` in the database's
      reply, or a thrown exception. */
  datatype DbOutcome = Row(row: Json) | DbError | DbThrew

  /** The JSON body of a reply: the inserted row, or an error text with the
      validation issues when there are any. */
  datatype Body = RowBody(row: Json) | ErrorBody(error: string, details: Option<seq<Field>>)

  datatype Reply = Reply(status: int, body: Body)

  /** A reply, and the record sent to the database, if any. */
  datatype Outcome = Outcome(reply: Reply, inserted: Option<Draft>)

  /** The handler. `request` is the parsed body (`None` when it is not JSON),
      `configured` whether both database environment variables are set, and
      `db` what the insert would return. */
  function Post(request: Option<Json>, configured: bool, db: DbOutcome): (r: Outcome)
    ensures r.reply.status == 400 <==> request.Some? && !Accepts(request.value)
    ensures r.reply.status == 400 ==>
      r.reply.body == ErrorBody(ValidationFailed, Some(Issues(request.value)))
    ensures r.inserted.Some? <==> request.Some? && Accepts(request.value) && configured
    ensures r.inserted.Some? ==> QuestionSchema(request.value) == Success(r.inserted.value)
    ensures r.reply.status == 201 <==> r.inserted.Some? && db.Row?
    ensures r.reply.status == 201 ==> r.reply.body == RowBody(db.row)
    ensures r.inserted.Some? && db.DbError? ==> r.reply == Reply(500, ErrorBody(InsertFailed, None))
    ensures r.reply.status !in {201, 400} && !(r.inserted.Some? && db.DbError?) ==>
      r.reply == Reply(500, ErrorBody(SubmitFailed, None))
  {
    if request.None? then Outcome(Reply(500, ErrorBody(SubmitFailed, None)), None)
    else
      match QuestionSchema(request.value)
      case Failure(issues) => Outcome(Reply(400, ErrorBody(ValidationFailed, Some(issues))), None)
      case Success(validated) =>
        if !configured then Outcome(Reply(500, ErrorBody(SubmitFailed, None)), None)
        else
          match db
          case Row(row) => Outcome(Reply(201, RowBody(row)), Some(validated))
          case DbError => Outcome(Reply(500, ErrorBody(InsertFailed, None)), Some(validated))
          case DbThrew => Outcome(Reply(500, ErrorBody(SubmitFailed, None)), Some(validated))
  }

  /** A draft built by either form reaches the database unchanged, and is
      turned away with 400 exactly when it breaks a maximum, which the forms
      do not check. */
  lemma FormDraftVerdict(question: string, solution: string, contributor: string,
                         tagsText: string, answer: Answer, d: Draft, db: DbOutcome)
    requires SubmitChecks.PreCheck(question, solution, contributor, tagsText, answer) == Success(d)
    ensures Post(Some(ToJson(d)), true, db).reply.status == 400 <==> !Maxima(d)
    ensures Maxima(d) ==> Post(Some(ToJson(d)), true, db).inserted == Some(d)
  {
    SubmitChecks.PreCheckedDraftVerdict(question, solution, contributor, tagsText, answer, d);
    DraftRoundTrip(d);
  }
}
