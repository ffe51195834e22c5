# phy-collector question collector, modelled in Dafny

phy-collector collects physics multiple-choice questions. It ships in two
versions that share most of their logic.

- **Server-rendered application.** Its form posts a question to `POST /api/questions`. That route validates the body against the question schema and inserts it into the database. Images pasted into the markdown editor go to `POST /api/upload`, which screens the files and stores them in object storage. A question the server accepts is then cached in the browser's `localStorage`, unless that write throws. The question list reads only this cache and sorts it newest first. The cache also offers a merge with the server's rows (`mergeWithServerData`), which is modelled, although no page of the application calls it.
- **Single-page application.** It inserts questions straight into the database and uploads images straight to object storage from the browser.

The model covers the logic of both versions:

- the client-side pre-checks and the tag tokenizer;
- the submit state machine of both forms;
- the question schema;
- the questions route;
- the upload route and the server-side storage client;
- the browser upload client and its unique object names;
- the question cache, including its merge with server data;
- the card title extraction.

The following are parameters of the operations rather than modelled behaviour:

- the clock;
- UUIDs;
- random suffixes;
- the outcome of every database call and storage call;
- whether the code runs in a browser;
- the raw `localStorage` slot.

Layout, one module per file:

- `wrappers.dfy`: `Option` and `Result`.
- `js_text.dfy`: JavaScript white space, `trim`, `startsWith`, and decimal rendering of numbers.
- `types.dfy`: the records of `src/types/index.ts`.
- `validations.dfy`: the question schema and the file rules.
- `submit_checks.dfy`: the pre-checks and tag tokenizer shared by both forms.
- `insertion_map.dfy`: a `Map` keyed by id that keeps insertion order.
- `stable_sort.dfy`: the stable newest-first sort.
- `storage.dfy` and `spa_storage.dfy`: the two question caches.
- `app_form.dfy` and `spa_form.dfy`: the two forms.
- `questions_route.dfy` and `upload_route.dfy`: the two API routes.
- `minio.dfy` and `upload_batch.dfy`: the server-side upload loop and its bookkeeping.
- `spa_upload.dfy`: the browser upload client.
- `question_card.dfy`: the card title.

Behaviour of the code worth knowing:

- The forms check that fields are not blank, but never check the schema's maxima. A draft that passes the form can therefore be turned away with status 400 (`QuestionsRoute.FormDraftVerdict`).
- The upload route's own screening rejects `size > 10 MiB`. This agrees with the schema's inclusive bound `size <= 10 MiB`, so a file of exactly 10 MiB passes both (`UploadRoute.SizeLimitInclusive`).
- The browser client gives a file without a dot an "extension" equal to its whole name, so `photo` becomes `photo-<ts>-<rand>.photo`.
- Both forms write the cache after the server or database has accepted the question. When `localStorage.setItem` throws (a full quota, or storage that is not allowed), the form shows the thrown message as its error. It shows no success message and keeps the fields, although the question was stored (`AppForm.Form.Finish`, `SpaForm.Form.Finish`).
- The upload record is a plain object. Assigning to its `__proto__` key does not add an own key, so a file named `__proto__` that uploads is missing from the record. In the browser client a batch whose only success is that file is reported as "All files failed to upload" (`SpaUpload.ProtoOnlySuccess`).

## Model

| member | source | states |
|---|---|---|
| Types.AnswerOf | src/types/index.ts:5 | an answer is read exactly from the four one-letter symbols A, B, C, D |
| Types.AnswerRoundTrip | src/types/index.ts:5 | reading an answer's symbol gives the answer back, and an accepted symbol is the symbol of what it reads as |
| Types.AsQuestion | src/types/index.ts:20-23 | a cached question is a question whose id and creation time are both present and equal to the cached ones |
| Types.Names | src/lib/upload.ts:29 | the file names, one per file, in order |
| JsText.Trim | app/components/QuestionForm.tsx:24 | removes the leading and trailing white space; its properties are stated by `JsText.TrimStartSpec`, `JsText.TrimEndSpec` and `JsText.TrimEmptyIffBlank` |
| JsText.TrimStartSpec | app/components/QuestionForm.tsx:24 | the leading part `trim` drops is all white space, and what remains is a suffix that does not start with white space |
| JsText.TrimEndSpec | app/components/QuestionForm.tsx:24 | the trailing part `trim` drops is all white space, and what remains is a prefix that does not end with white space |
| JsText.TrimEmptyIffBlank | app/components/QuestionForm.tsx:24-37 | `!s.trim()` holds exactly when every character of `s` is JavaScript white space |
| JsText.TrimNoSpace | app/components/QuestionForm.tsx:41 | trimming a string without white space leaves it unchanged |
| JsText.Decimal | lib/minio.ts:29-31 | a timestamp renders as one or more decimal digits |
| JsText.DecimalRoundTrip | lib/minio.ts:31 | the rendered digits read back as the same timestamp |
| JsText.DecimalInjective | lib/minio.ts:31 | different timestamps render differently |
| Validations.FieldRule | lib/validations.ts:6-26 | the rule of one field: a string within its minimum and maximum length, an answer among A to D, or one to ten tags of 1 to 50 characters; stated by `Validations.Issues` |
| Validations.Accepts | lib/validations.ts:6-26 | an object body every field of which keeps its rule; stated by `Validations.QuestionSchema` and `Validations.DraftRoundTrip` |
| Validations.FileRule | lib/validations.ts:33-44 | a file of at most 10 MiB whose type starts with `image/`; stated by `UploadRoute.ScreeningPartition` |
| Validations.FileBatchRule | lib/validations.ts:33-47 | one to ten files, each keeping the file rule; stated by `UploadRoute.BatchRuleAgreement` |
| Validations.FailingAmong | lib/validations.ts:6-26 | the failing fields are exactly the listed fields that break their rule |
| Validations.Issues | lib/validations.ts:6-26 | a non-object body has the single whole-body issue; otherwise a field has an issue exactly when it breaks its rule |
| Validations.IssuesIffRejected | lib/validations.ts:6-26 | no issue is reported exactly when the body is accepted |
| Validations.QuestionSchema | lib/validations.ts:6-26 | parsing succeeds exactly when the body is accepted, gives back the five fields as sent, and otherwise fails with the non-empty issue list |
| Validations.Strings | lib/validations.ts:19 | the text of each tag, in order |
| Validations.TagValues | lib/validations.ts:19 | each tag as a JSON string, in order |
| Validations.StringsRoundTrip | lib/validations.ts:19 | turning accepted tag values to text and back gives the same values |
| Validations.DraftRoundTrip | lib/validations.ts:6-26 | a draft sent as JSON passes the schema exactly when it is within the minima and maxima, and then parses back to itself |
| Validations.BlankQuestionAccepted | lib/validations.ts:7-10 | the schema does not trim: a question of one space passes `min(1)` |
| SubmitChecks.TokenLengthSpec | app/components/QuestionForm.tsx:40 | the token scanned is separator-free and is stopped by a separator or by the end |
| SubmitChecks.SeparatorRunLengthSpec | app/components/QuestionForm.tsx:40 | the run matched by `[,\s]+` holds only separators and is stopped by a non-separator or by the end |
| SubmitChecks.SplitTags | app/components/QuestionForm.tsx:40 | `split(/[,\s]+/)` yields at least one piece, and no piece holds a comma or white space |
| SubmitChecks.AfterSeparators | app/components/QuestionForm.tsx:40 | skipping a token and its separator run makes progress |
| SubmitChecks.TrimAll | app/components/QuestionForm.tsx:41 | every piece is trimmed, in place |
| SubmitChecks.NonEmpty | app/components/QuestionForm.tsx:42 | a piece is kept exactly when it is non-empty, and the result is no longer than the input |
| SubmitChecks.NonEmptyAppend | app/components/QuestionForm.tsx:42 | the filter works piece by piece: it distributes over concatenation, keeps a single non-empty piece and drops a single empty one, so the kept pieces stay in input order with their multiplicity |
| SubmitChecks.ParseTags | app/components/QuestionForm.tsx:39-42 | splits at runs of commas and white space, trims each piece and keeps the non-empty ones; its properties are stated by `SubmitChecks.ParseTagsSpec` and `SubmitChecks.ParseTagsEmptyIff` |
| SubmitChecks.RemoveSeparatorsAppend | app/components/QuestionForm.tsx:39-42 | deleting separators distributes over concatenation |
| SubmitChecks.RemoveSeparatorsOfToken | app/components/QuestionForm.tsx:39-42 | deleting separators leaves a separator-free token unchanged |
| SubmitChecks.RemoveSeparatorsOfRun | app/components/QuestionForm.tsx:39-42 | deleting separators empties a run of separators |
| SubmitChecks.ConcatSplitStep | app/components/QuestionForm.tsx:40 | the pieces of a text join to its first token followed by the pieces after the separator run |
| SubmitChecks.RemoveSeparatorsStep | app/components/QuestionForm.tsx:40 | the text without separators is its first token followed by the rest without separators |
| SubmitChecks.SplitTagsKeepsText | app/components/QuestionForm.tsx:40 | the split loses no character other than separators: the pieces join to the text with its separators deleted |
| SubmitChecks.NoSeparatorTrim | app/components/QuestionForm.tsx:41 | trimming a separator-free piece changes nothing |
| SubmitChecks.TrimAllNoSeparator | app/components/QuestionForm.tsx:41 | trimming the split pieces changes none of them |
| SubmitChecks.NonEmptyKeepsText | app/components/QuestionForm.tsx:42 | dropping empty pieces does not change their concatenation |
| SubmitChecks.ParseTagsSpec | app/components/QuestionForm.tsx:39-42 | every parsed tag is non-empty, separator-free and already trimmed, and the tags joined are the text with its separators deleted |
| SubmitChecks.ConcatEmpty | app/components/QuestionForm.tsx:44 | non-empty tags join to nothing only when there are none |
| SubmitChecks.RemoveSeparatorsEmpty | app/components/QuestionForm.tsx:44 | deleting separators leaves nothing exactly when the text is all separators |
| SubmitChecks.ParseTagsEmptyIff | app/components/QuestionForm.tsx:39-47 | no tag is parsed exactly when the tag text holds only commas and white space |
| SubmitChecks.TokenLengthOf | app/components/QuestionForm.tsx:40 | a separator-free word followed by a separator or the end is scanned whole |
| SubmitChecks.RunLengthOf | app/components/QuestionForm.tsx:40 | a run of separators followed by a non-separator or the end is matched whole |
| SubmitChecks.SplitTagsOf | app/components/QuestionForm.tsx:40 | a word, a separator run and a rest split into the word followed by the pieces of the rest |
| SubmitChecks.SplitTagsOfToken | app/components/QuestionForm.tsx:40 | a separator-free word is its own single piece |
| SubmitChecks.SplitTagsExample | app/components/QuestionForm.tsx:40 | `w1,  w2   w3,` splits into the three words and a trailing empty piece |
| SubmitChecks.ParseTagsExample | app/components/QuestionForm.tsx:39-42 | `w1,  w2   w3,` parses to exactly the three words, as in `Math,  Algebra   Functions,` |
| SubmitChecks.PreCheck | app/components/QuestionForm.tsx:21-55 | each check fails exactly when it is the first blank field among question, solution and contributor, or then the tags are all separators; on success the draft holds the trimmed fields, the parsed tags and the answer |
| SubmitChecks.PreCheckedDraftVerdict | app/components/QuestionForm.tsx:49-55 | a pre-checked draft meets every minimum of the schema, and passes it exactly when it meets the maxima |
| InsertionMap.Ids | lib/storage.ts:71 | the keys of the map, one per entry, in insertion order |
| InsertionMap.Find | lib/storage.ts:71 | `get` finds an entry held under its key, and finds nothing exactly when the key is absent |
| InsertionMap.Put | lib/storage.ts:74 | `Map.set`: replaces the entry of an existing key in place, or appends a new one; stated by `InsertionMap.PutFind`, `InsertionMap.PutIds` and `InsertionMap.PutDistinct` |
| InsertionMap.PutAll | lib/storage.ts:74 | `set` of each question in order; stated by `InsertionMap.PutAllFind`, `InsertionMap.PutAllDistinct` and `InsertionMap.PutAllIds` |
| InsertionMap.PutFind | lib/storage.ts:74 | after `set(k, q)`, `get(k)` is `q` and every other key finds what it found before |
| InsertionMap.PutIds | lib/storage.ts:74 | `set` keeps the key order, and appends a key only when the key is new |
| InsertionMap.PutDistinct | lib/storage.ts:74 | `set` keeps the keys distinct |
| InsertionMap.LastWith | lib/storage.ts:74 | the last entry of a sequence with a given key is in it and has that key, and there is none exactly when the key is absent |
| InsertionMap.LastWithAt | lib/storage.ts:74 | an entry with no later entry of the same key is the last with its key |
| InsertionMap.PutAllFind | lib/storage.ts:74 | after setting a sequence in order, a key finds the last entry set with it, or what it found before |
| InsertionMap.PutAllDistinct | lib/storage.ts:74 | setting a sequence keeps the keys distinct |
| InsertionMap.AppendNew | lib/storage.ts:74 | the keys extend the old ones and hold exactly the keys of either list |
| InsertionMap.PutAllIds | lib/storage.ts:74 | setting a sequence appends its new keys in first-set order |
| StableSort.Insert | lib/storage.ts:87-89 | places a question before the first question no newer than it; stated by `StableSort.InsertPermutes`, `StableSort.InsertSorted` and `StableSort.InsertWithTime` |
| StableSort.SortDesc | lib/storage.ts:87-89 | the stable newest-first sort; stated by `StableSort.SortDescPermutes`, `StableSort.SortDescSorted`, `StableSort.SortDescStable` and `StableSort.SortDescMembers` |
| StableSort.InsertPermutes | lib/storage.ts:87-89 | inserting adds exactly the one question |
| StableSort.SortDescPermutes | lib/storage.ts:87-89 | the sort is a permutation |
| StableSort.InsertSorted | lib/storage.ts:87-89 | inserting into a newest-first list keeps it newest-first |
| StableSort.SortDescSorted | lib/storage.ts:87-89 | the result is ordered newest first |
| StableSort.WithTimeAppend | lib/storage.ts:87-89 | the questions with one timestamp, taken from two lists joined, are those from each list joined |
| StableSort.InsertWithTime | lib/storage.ts:87-89 | inserting puts the new question before every question with its own timestamp |
| StableSort.SortDescStable | lib/storage.ts:87-89 | the sort is stable: questions with equal timestamps keep their input order |
| StableSort.SortDescMembers | lib/storage.ts:87-89 | the sort keeps exactly the questions it was given |
| Storage.Read | lib/storage.ts:39-48 | a missing, empty, unparsable or non-array slot reads as no questions, and an array slot as its records |
| Storage.Complete | lib/storage.ts:22-26 | the cached record keeps the question's fields, its id unless missing or empty (then the fresh UUID), and its timestamp unless missing (then now) |
| Storage.CompleteKeepsCached | lib/storage.ts:79-83 | completing a cached question with a non-empty id gives it back unchanged |
| Storage.CompleteIdempotent | lib/storage.ts:22-26 | completing an already-completed question changes nothing |
| Storage.Entries | lib/storage.ts:77-85 | the `set` calls of the server rows: each row with a non-empty id, completed with the current time; stated by `Storage.EntriesLast` and `Storage.EntriesStep` |
| Storage.Merged | lib/storage.ts:70-85 | the map after the local questions and then the server entries are set; stated by `Storage.MergedDistinct` |
| Storage.Merge | lib/storage.ts:65-90 | the map's values sorted newest first; stated by `Storage.MergeFind`, `Storage.MergeServerWins`, `Storage.MergeLocalSurvives`, `Storage.MergeMembers`, `Storage.MergeSorted` and `Storage.MergeTieOrder` |
| Storage.LastServer | lib/storage.ts:77-85 | the last server row with a given id is in the rows and has that id, and there is none exactly when no row has it |
| Storage.EntriesLast | lib/storage.ts:77-85 | the server entries hold a key exactly when a server row has it as a non-empty id, and the last such row, completed with the current time, is the one set |
| Storage.EntriesStep | lib/storage.ts:77-85 | a server row without an id is skipped, and one with an id adds its completed record, which on any map is one more `set` |
| Storage.InsertDistinct | lib/storage.ts:87-89 | inserting a question with a new id keeps ids distinct |
| Storage.SortDescDistinct | lib/storage.ts:87-89 | sorting keeps ids distinct |
| Storage.FindDistinct | lib/storage.ts:71 | when ids are distinct, a key finds exactly the question with that id |
| Storage.SortDescFind | lib/storage.ts:87-89 | sorting does not change what a key finds |
| Storage.MergedDistinct | lib/storage.ts:70-85 | the merged map holds each id once |
| Storage.MergeDistinct | lib/storage.ts:65-90 | the merge result holds each id once |
| Storage.MergeFind | lib/storage.ts:65-90 | an id finds the last server record with it when there is one, and the last local record with it otherwise |
| Storage.MergeServerWins | lib/storage.ts:76-85 | server data takes precedence: a non-empty id held by a server row finds that row, completed |
| Storage.MergeLocalSurvives | lib/storage.ts:74 | an id no server row holds finds the last local question with it |
| Storage.MergeMembers | lib/storage.ts:65-90 | every question in the result is the one its id finds |
| Storage.MergeSorted | lib/storage.ts:87-89 | the result is ordered newest first |
| Storage.MergeTieOrder | lib/storage.ts:71-89 | questions with equal timestamps keep the map's order, which is local ids first and then new server ids, each in first-set order |
| Storage.QuestionStore.constructor | lib/storage.ts:9-11 | the store starts in the given environment with the given slot |
| Storage.QuestionStore.GetQuestions | lib/storage.ts:36-49 | outside a browser nothing is read; in a browser an array slot gives its records and anything else gives none |
| Storage.QuestionStore.SaveQuestion | lib/storage.ts:17-30 | in a browser, when the write succeeds, the slot becomes the old questions followed by the completed question; when the write throws, its message is thrown and the slot is unchanged; outside a browser nothing changes and nothing is thrown |
| Storage.QuestionStore.ClearQuestions | lib/storage.ts:54-57 | in a browser the slot is removed; either way no question is read afterwards |
| Storage.QuestionStore.MergeWithServerData | lib/storage.ts:65-90 | outside a browser the result is empty; in a browser it is the merge of the cache with the server rows |
| SpaStorage.SpaQuestionStore.constructor | src/lib/storage.ts:3 | the store starts with the given slot |
| SpaStorage.SpaQuestionStore.GetQuestions | src/lib/storage.ts:18-29 | an array slot gives its records and anything else gives none |
| SpaStorage.SpaQuestionStore.SaveQuestion | src/lib/storage.ts:5-16 | when the write succeeds the slot becomes the old questions followed by the completed question, one longer, and nothing is thrown; when it throws, its message is thrown and the slot is unchanged |
| SpaStorage.SpaQuestionStore.ClearQuestions | src/lib/storage.ts:31-33 | the slot is removed and no question is read afterwards |
| AppForm.FailureMessage | app/components/QuestionForm.tsx:67-70 | a failed response shows its non-empty `error`, a thrown error its message, and otherwise the fixed failure text |
| AppForm.Form.constructor | app/components/QuestionForm.tsx:10-17 | the form starts empty with answer A, not submitting and with no messages |
| AppForm.Form.SelectAnswer | app/components/QuestionForm.tsx:162-165 | the selector changes the answer only to one of A to D, and nothing else |
| AppForm.Form.Checks | app/components/QuestionForm.tsx:21-55 | a draft built from the fields carries the selected answer |
| AppForm.Form.Submit | app/components/QuestionForm.tsx:19-57 | both messages are cleared; a failed check sets its message and sends nothing; otherwise the form starts submitting and sends the draft; no field changes |
| AppForm.Form.Finish | app/components/QuestionForm.tsx:59-97 | on success with a cache write that does not throw, the completed question is cached, the success message is set and the fields reset; on success with a throwing write, the thrown message becomes the error, the cache and the fields are unchanged and no success message is set; on failure only the failure message is set; either way submitting stops |
| SpaForm.FailureMessage | src/components/QuestionForm.tsx:75-76 | a database error shows the prefixed database message, a thrown error its message, and otherwise the fixed failure text |
| SpaForm.Form.constructor | src/components/QuestionForm.tsx:9-16 | the form starts empty with answer A, not submitting and with no messages |
| SpaForm.Form.Checks | src/components/QuestionForm.tsx:20-54 | a draft built from the fields carries the selected answer |
| SpaForm.Form.Submit | src/components/QuestionForm.tsx:18-56 | both messages are cleared; a failed check sets its message and sends nothing; otherwise the form starts submitting and sends the draft; no field changes |
| SpaForm.Form.Finish | src/components/QuestionForm.tsx:58-79 | on an insert with a cache write that does not throw, the completed question is cached, the success message is set and the fields reset; on an insert with a throwing write, the thrown message becomes the error, the cache and the fields are unchanged and no success message is set; on failure only the failure message is set; either way submitting stops |
| QuestionsRoute.Post | app/api/questions/route.ts:10-63 | 400 with the issues exactly for a parsed body the schema rejects; an insert of the validated fields exactly when the body is accepted and the database is configured; 201 with the row exactly when that insert returns one; 500 otherwise, with the insert-specific text only for a database error |
| QuestionsRoute.FormDraftVerdict | app/api/questions/route.ts:16-43 | a draft from either form is refused with 400 exactly when it breaks a maximum, and is otherwise inserted unchanged |
| Minio.ObjectKey | lib/minio.ts:31 | `uploads/<timestamp>-<suffix>-<name>`; stated by `Minio.ObjectKeyInjective` |
| Minio.PublicUrl | lib/minio.ts:44 | the endpoint, the bucket and the key joined by slashes; the URL `Minio.UploadFile` returns |
| Minio.UploadFile | lib/minio.ts:27-46 | a URL is returned exactly when the object is stored, and it is the public URL of the key built from that upload's timestamp, suffix and the file name |
| Minio.DashAfterHead | lib/minio.ts:31 | in a dash-free head followed by a dash, the first dash follows the head |
| Minio.SplitAtDash | lib/minio.ts:31 | cutting at the first dash after a dash-free head is unambiguous |
| Minio.ObjectKeyInjective | lib/minio.ts:29-31 | an object key determines the timestamp, the suffix and the file name |
| Minio.Urls | lib/minio.ts:60-68 | one outcome per file |
| Minio.UrlsAt | lib/minio.ts:62 | the outcome of file i is what uploading file i gives |
| Minio.UploadMultipleFiles | lib/minio.ts:53-71 | the record and the failures are exactly those of the batch's outcomes, in file order |
| UploadBatch.SetEntry | lib/minio.ts:63 | assignment to a plain-object record: the name becomes a key holding the URL and the other keys keep their values, except that a name of `__proto__` adds no key and changes nothing |
| UploadBatch.SuccessMap | lib/minio.ts:60-68 | the record after every successful upload is assigned in order; never holds `__proto__`; `UploadBatch.UploadPartition` states which stored files are keys, and `UploadBatch.SuccessMapKeys` states that it holds no other key or value |
| UploadBatch.RecordedCount | lib/minio.ts:60-68 | the successes that add a key, that is those of files not named `__proto__`; at most the number of successes |
| UploadBatch.FailedNames | lib/minio.ts:64-66 | at most one failure per file |
| UploadBatch.SuccessCount | lib/minio.ts:62-63 | at most one success per file |
| UploadBatch.FailedNamesAppend | lib/minio.ts:60-68 | the failures are gathered file by file: they distribute over a split of the batch, and a single file contributes its name exactly when its upload failed, so they are the failed files' names in input order |
| UploadBatch.SuccessMapKeys | lib/minio.ts:60-68 | every key of the record names a file whose upload succeeded, and holds the URL of the last success with that name |
| UploadBatch.BatchStep | lib/minio.ts:60-68 | one more file adds its name to the failures when its upload failed, and otherwise sets its URL in the record |
| UploadBatch.UploadCount | lib/minio.ts:60-68 | every file is counted once, as a failure or a success |
| UploadBatch.UploadPartition | lib/minio.ts:60-68 | a failed file is named among the failures; a stored file not named `__proto__` is in the record, with its own URL unless a later file of the same name overwrote it; a file named `__proto__` never is |
| UploadBatch.UploadAllOrNothing | lib/minio.ts:60-68 | no failure exactly when every upload succeeds, and an empty record exactly when no success adds a key |
| UploadRoute.Rejected | app/api/upload/route.ts:43-57 | at most one rejection per file |
| UploadRoute.Accepted | app/api/upload/route.ts:43-57 | every file let through is an input file that passes the size and type rule |
| UploadRoute.AcceptedAttempts | app/api/upload/route.ts:56 | one upload outcome per file let through |
| UploadRoute.Screen | app/api/upload/route.ts:40-57 | the screening loop: the rejected names, the files let through and their upload outcomes are exactly those of the rule, in order |
| UploadRoute.Summary | app/api/upload/route.ts:63-72 | the response built from the rejections and the upload; stated by `UploadRoute.SummaryVerdict` |
| UploadRoute.Post | app/api/upload/route.ts:10-86 | a failure to read the form gives 500; no file or more than ten gives 400 with code 1; otherwise 200 with the summary of screening and uploading |
| UploadRoute.ScreeningPartition | app/api/upload/route.ts:43-57 | a file breaking the rule is named among the rejected, and one keeping it goes on to upload |
| UploadRoute.RejectedAppend | app/api/upload/route.ts:43-57 | the rejections are gathered file by file: they distribute over a split of the batch, and a single file is rejected by name exactly when it breaks the rule, so they are the breaking files' names in input order |
| UploadRoute.AcceptedAppend | app/api/upload/route.ts:43-57 | the files let through are gathered file by file: they distribute over a split of the batch, so with `UploadRoute.AcceptedOne` they are the files keeping the rule, in input order with their repetitions |
| UploadRoute.AcceptedOne | app/api/upload/route.ts:43-57 | a single file goes through exactly when it keeps the rule |
| UploadRoute.ScreenStep | app/api/upload/route.ts:43-57 | screening one more file adds its name to the rejected, or adds it and its upload outcome to those let through |
| UploadRoute.ScreeningCount | app/api/upload/route.ts:43-57 | every file is screened exactly once |
| UploadRoute.NoneRejected | app/api/upload/route.ts:43-57 | nothing is rejected exactly when every file passes the rule |
| UploadRoute.BatchRuleAgreement | lib/validations.ts:33-47 | the route's own checks accept a batch exactly when the file upload schema does |
| UploadRoute.SizeLimitInclusive | app/api/upload/route.ts:45 | an image of exactly 10 MiB passes, and one byte more does not |
| UploadRoute.SummaryVerdict | app/api/upload/route.ts:63-72 | code 1 exactly when no upload succeeded; no `errFiles` exactly when nothing was rejected and every upload succeeded; success is reported exactly then |
| SpaUpload.LastDot | src/lib/upload.ts:14-15 | the index of a '.' with no '.' after it, or none exactly when the name has no '.' |
| SpaUpload.LastDotAt | src/lib/upload.ts:14 | a '.' with no later '.' is the last one |
| SpaUpload.Extension | src/lib/upload.ts:14 | a name without '.' is its own extension; otherwise the extension is the '.'-free text after the last '.' |
| SpaUpload.BaseName | src/lib/upload.ts:15 | the base is the whole name unless the name ends in a '.' followed by a non-empty text without '.' or '/'; then it is the prefix before that last '.' |
| SpaUpload.BaseExtensionSplit | src/lib/upload.ts:14-15 | when a suffix is stripped, base, '.' and extension rebuild the name, and the extension is non-empty with no '.' or '/' |
| SpaUpload.UniqueFilename | src/lib/upload.ts:11-17 | `<base>-<timestamp>-<random>.<extension>`; stated by `SpaUpload.UniqueFilenameWithExtension` and `SpaUpload.UniqueFilenameWithoutDot` |
| SpaUpload.UniqueFilenameWithExtension | src/lib/upload.ts:11-17 | `b.e` with a plain extension becomes `b-<timestamp>-<random>.e` |
| SpaUpload.UniqueFilenameWithoutDot | src/lib/upload.ts:11-17 | a name without a dot becomes `name-<timestamp>-<random>.name` |
| SpaUpload.ObjectKey | src/lib/upload.ts:40 | the key is `uploads/` followed by the unique name |
| SpaUpload.ObjectUrl | src/lib/upload.ts:43-60 | the endpoint, the bucket and the key joined by slashes, used both for the `PUT` and as the recorded URL; stated by `SpaUpload.PutUrl` |
| SpaUpload.PutUrl | src/lib/upload.ts:39-66 | a URL is recorded exactly for an ok response, and it is the URL the file was sent to |
| SpaUpload.PutUrls | src/lib/upload.ts:37-67 | one outcome per file |
| SpaUpload.PutUrlsAt | src/lib/upload.ts:38-66 | the outcome of file i is what its `PUT` gives |
| SpaUpload.PutFile | src/lib/upload.ts:38-66 | the step for one file gives exactly the outcome `SpaUpload.PutUrl` specifies: the object URL on an `ok` response, nothing on a thrown error or another response |
| SpaUpload.Report | src/lib/upload.ts:69-86 | code 1 with no record exactly when some file failed and none succeeded; otherwise code 0 with both lists; the messages follow whether any file failed |
| SpaUpload.UploadResult | src/lib/upload.ts:22-87 | the response of the upload: the not-configured refusal, or the report of the batch; stated by `SpaUpload.UploadToMinio`, `SpaUpload.UploadVerdict` and `SpaUpload.ProtoOnlySuccess` |
| SpaUpload.UploadToMinio | src/lib/upload.ts:22-87 | the response is the report of the batch, or the not-configured refusal naming every file |
| SpaUpload.NotConfiguredReport | src/lib/upload.ts:23-32 | without the settings the message is the not-configured text, the code is 1, there is no record, and the failure list has one name per file, in order, so an empty batch is refused with an empty list |
| SpaUpload.UploadVerdict | src/lib/upload.ts:69-86 | when configured, code 1 exactly when some upload failed and no success added a key to the record, and success reported exactly when every upload succeeded |
| SpaUpload.HandleUpload | src/lib/upload.ts:89-98 | the handler fails exactly on a non-zero code, with the message or a fixed text when it is empty |
| SpaUpload.HandlerVerdict | src/lib/upload.ts:89-98 | the editor gets a response exactly when configured and either every upload succeeded or some success added a key to the record; without settings it fails with the not-configured message |
| SpaUpload.ProtoOnlySuccess | src/lib/upload.ts:61-77 | a batch of one failed file and one stored file named `__proto__` is reported as all failed, naming only the failed file |
| QuestionCard.StripMarkup | src/components/QuestionCard.tsx:9 | the result holds no markdown punctuation (`#`, `*`, backtick, `_`, `[`, `]`, `!`), holds exactly the other characters of the input and is no longer than it |
| QuestionCard.StripMarkupAppend | src/components/QuestionCard.tsx:9 | the removal works character by character: it distributes over concatenation, drops a single markup character and keeps any other, so the kept characters stay in order with their count |
| QuestionCard.StripMarkupNoMarkup | src/components/QuestionCard.tsx:9 | text without that punctuation is left as it is |
| QuestionCard.FirstLine | src/components/QuestionCard.tsx:10 | the first line is a prefix without a line break, ended by a line break or the end |
| QuestionCard.FirstLineWhole | src/components/QuestionCard.tsx:10 | text without a line break is its own first line |
| QuestionCard.ExtractTitle | app/components/QuestionCard.tsx:8-12 | the title has no markup and no line break and is at most 103 long; it is the stripped first line when that is at most 100 long, and its first 100 characters plus `...` otherwise |
| QuestionCard.ExtractTitleIdempotent | app/components/QuestionCard.tsx:8-12 | the title of a title is the title |

## Left out

- Rendering: the React markup, the alerts, the theme toggle, the markdown editor component and the smooth scroll after submitting are left out. Only the form state they read is modelled.
- `formatDate` in both card components is left out, because it relies on `Intl.DateTimeFormat` and locale data.
- The question list's sort of the cache is the same comparison as the merge's sort, which `StableSort` models. Loading the list is not modelled separately.
- Timestamps are natural numbers. The ISO date strings and their conversion with `new Date(...).getTime()` are not modelled. An unparsable date, which sorts as `NaN`, is not modelled.
- JSON is not parsed or serialised. The cache slot is a value with the cases missing, empty, unparsable, non-array, or an array of records. The records in the array are assumed to be well-formed cached questions.
- `JSON.stringify` of the upload response in the editor handler is not modelled, so `SpaUpload.HandleUpload` returns the response itself.
- The database client, the object storage client, `fetch`, the clock, `crypto.randomUUID` and `Math.random` are not modelled. Their outcomes are parameters.
- The upload outcomes are given as a list aligned with the files. The model does not capture that a timestamp or random suffix differs from one call to the next.
- Reading the request's form data and `files` being falsy are not modelled. A request that cannot be read is `None`.
- Concurrency is not modelled: a second submit while one is pending, and the order in which React applies state updates.
- The zod issue objects are not modelled. An issue is represented by the field it is about. The message texts and the issue paths inside the tags array are not represented.
- The order of keys in the upload record is not modelled, since it is a map.
- `Storage.Entries`: one clock reading `now` completes every server row without a timestamp, whereas the source calls `new Date()` once per row, so rows completed in the same merge may get different times there. `Storage.Merged`, `Storage.Merge` and `Storage.QuestionStore.MergeWithServerData` share this simplification.
- `formData.getAll('files')` can return a string entry, whose `type` is undefined, so the screening throws and the route answers 500. The model takes every entry to be a file.
- The content type and the public-read ACL sent with each object, in both upload clients, are not modelled.
- Strings are sequences of characters. JavaScript's UTF-16 code units are not modelled, so `slice(0, 100)` can split a surrogate pair in the source but not in the model.
- `Minio.Urls`: only the length is in its contract. The per-file outcome is stated by `Minio.UrlsAt`.
- Creating the database client with missing settings throws in the source. Here it is the `configured` flag of `QuestionsRoute.Post`.
- The environment lookups for the server-side storage client (region, credentials) are not modelled. Only the endpoint and bucket reach the URL.
