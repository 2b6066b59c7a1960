# hackathon-professor: the pure core of a teacher's assistant, in Dafny

This project models the deterministic logic of a single-page app for teachers.
The app keeps a class roster with grades and attendance, asks a language model
for lesson plans and class analyses, and shows a dashboard and notifications.
Everything that talks to the network, the clock or the browser is outside the
model. What remains is a set of pure functions over JSON values, strings and
sequences, and these are modelled here together with their properties:

- **Language-model replies** (`AiClient`, `BraceScan`, `PlanShape`, `PlanNormalize`).
  - `generateLessonPlan` strips code fences, tries a direct parse, and then tries
    the slice from the first `{` to the last `}`.
  - `processNotebookLM` and `analyzeClassroom` prefer a ```` ```json ```` fence and
    otherwise fall back to the greedy brace span.
  - The lesson-plan page (`normalizedPlan`) and the classroom context
    (`normalizePlan`) both recover a plan from stored raw text with a
    brace-depth scan. The scan counts braces even inside string literals.
- **Lesson-plan editing** (`PlanEdit`): `updateAula`, `addAula` and `removeAula`
  on the `plano.etapas[].aulas[]` tree, and the aula count of a saved plan.
- **Student records** (`Scoring`, `GradeEditor`, `Enrollment`, `Roster`):
  - the engagement score and its tier;
  - the grade editor's save and add-row rules;
  - CSV and manual enrolment;
  - the roster filter, role tagging and the extra-map merge;
  - the saved-plan listing.
- **Dashboard figures** (`Dashboard`): at-risk count, invisible students, pooled
  grade mean and attendance mean, each overridden by the AI analysis when it
  provides one.
- **Notifications** (`Notifications`): the list operations and the one-entry
  digest of an AI analysis.
- **Database helpers** (`Api`): collection naming, query URLs, empty-body
  fallbacks and the upsert choice.

The shared modules are:
- `JsonData`: JSON values. Objects are ordered association lists, lookups are
  last-wins, and `Number()` coercion is included.
- `Text`: `trim`, `indexOf`, `split`, `join` and decimal printing.
- `Seqs`: `filter`, sums and a descending sort.
- `Wrappers`: `Option` and `Result`.

`JSON.parse` appears throughout as a parameter `parse: string -> Option<Json>`,
where `None` means the parse throws. The properties below therefore hold for
every parser.

## Model

| member | source | states |
|---|---|---|
| AiClient.FullPrompt | src/services/aiClient.js:20-23 | With no context the prompt goes through unchanged. With a context the prompt starts with "Contexto:\n", the context follows right after, and the prompt ends with "\n\nPergunta/Instrução:\n" and the question. Its length is the sum of these four pieces, so nothing else is in it. |
| AiClient.CleanResponse | src/services/aiClient.js:105 | The cleaned reply contains no ``` anywhere and has no leading or trailing white space. |
| AiClient.RemoveFencesFree | src/services/aiClient.js:105 | The second replace removes every remaining ``` and leaves no occurrence, including any that the removals themselves bring together. |
| AiClient.StripTaggedPrefix | src/services/aiClient.js:105 | Text with no backtick passes through the tagged-fence removal untouched and does not affect how the rest is cleaned. |
| AiClient.CleanPlain | src/services/aiClient.js:105 | A reply without backticks and without surrounding white space is left exactly as it is. |
| AiClient.FencedCleansToSame | src/services/aiClient.js:105 | Wrapping a reply in a ``` or ```json fence does not change what the cleanup produces. |
| AiClient.BraceSlice | src/services/aiClient.js:115-118 | The slice exists exactly when some `}` follows some `{`. It runs from the first `{` to the last `}`. |
| AiClient.Shape | src/services/aiClient.js:121-124 | A value with `plano.etapas` is kept as is. A value with only a bare `etapas` is wrapped as `{plano: value}`. Anything else is returned as parsed. |
| AiClient.PlanFromText | src/services/aiClient.js:107-130 | A direct parse with a plan shape always yields a plan. No brace slice and no direct plan gives `{raw: result}`. Any other answer is a plan or a parsed brace slice. |
| AiClient.DirectPlanReturned | src/services/aiClient.js:108-111 | A direct parse with `plano.etapas` is returned unchanged. One with a bare `etapas` is returned as `{plano: parsed}`. |
| AiClient.DirectWithoutPlanFallsThrough | src/services/aiClient.js:108-118 | A direct parse without `etapas` is not returned. With no brace slice the reply stays raw. Otherwise the outcome is the same as if the direct parse had thrown, and the same value comes back only when the slice is the whole text. |
| AiClient.SliceReturnedUngated | src/services/aiClient.js:119-124 | On the slice path a parsed value without `etapas` is returned as it is. The result has `plano.etapas` exactly when the parsed value had either shape. |
| AiClient.GenerateLessonPlan | src/services/aiClient.js:103-130 | The result is `{raw: result}` with the original text, a plan, or a parsed brace slice. A reply with no backtick, no `{` and no direct plan always falls back to raw. |
| AiClient.PlanOnCleanedText | src/services/aiClient.js:105-109 | The attempts run on the cleaned reply, while the raw fallback keeps the reply as received. |
| AiClient.FencedReplySamePlan | src/services/aiClient.js:105-130 | A fenced reply yields the same plan as the bare reply, or both fall back to their own raw text. |
| AiClient.JsonFence | src/services/aiClient.js:40 | Finds the first ```json opening that has a closing fence after it, with an optional newline skipped. The body ends at the first closing fence. There is no match exactly when no closing fence follows any opening. |
| AiClient.ParseStructuredReply | src/services/aiClient.js:39-47 | A closed json fence wins, and an empty fence body falls back to the whole match. Otherwise the greedy brace span is used. Every failure gives `{raw: result}`, and any other result is the parse of a substring of the reply. |
| AiClient.ReplyWithoutObjectIsRaw | src/services/aiClient.js:168-176 | A class analysis with no json fence and no `{` is returned as raw text. |
| BraceScan.ScanFromCorrect | src/pages/PlanoAula.jsx:53-62 | The depth loop, run from any reachable state, returns the first depth-balanced span that parses. It returns nothing when no such span parses. |
| BraceScan.FirstParsedSpan | src/pages/PlanoAula.jsx:53-62 | The span found is balanced and parses, and every balanced span that closes earlier fails to parse. No span is found exactly when none parses. |
| BraceScan.ScanParse | src/contexts/ClassroomContext.jsx:89-98 | The scan yields a value exactly when some balanced span parses. That value is the parse of the first such span. |
| BraceScan.QuotedBraceCloses | src/pages/PlanoAula.jsx:55-57 | A `}` inside a string literal closes the outer brace: in `{"a":"}"}` the balanced span ends at the quoted brace, not at the last one. |
| PlanShape.PlanoOf | src/pages/PlanoAula.jsx:64-65 | A plan is found exactly when the value has `plano.etapas` or a bare `etapas`. It is `parsed.plano` in the first case and the value itself in the second, and it always has `etapas`. |
| PlanShape.Wrap | src/services/aiClient.js:111 | The wrapper's `plano` is the wrapped value, so wrapping a value that has `etapas` gives a value with `plano.etapas`. |
| PlanNormalize.PlanFence | src/pages/PlanoAula.jsx:51 | Matches the first ``` with a closing fence after its body. The body starts after an optional `json` tag and white space, and ends at the next ```. There is no match exactly when no two fences are far enough apart. |
| PlanNormalize.ScanText | src/pages/PlanoAula.jsx:51-52 | With no fence the whole raw text is scanned. With a fence exactly the body between the first opening fence and its closing fence is scanned; it is shorter and contains no ```. |
| PlanNormalize.NoBacktickNoFence | src/pages/PlanoAula.jsx:51-52 | Raw text without backticks is scanned whole. |
| PlanNormalize.Recover | src/pages/PlanoAula.jsx:53-63 | The first parsing balanced span wins. When no span parses, the page parses the whole trimmed text instead. |
| PlanNormalize.Install | src/pages/PlanoAula.jsx:64-68 | A recovered value with a plan shape becomes `plano`, exactly the plan `PlanShape.PlanoOf` picks from it, and every other field is kept. Otherwise the stored plan is returned unchanged. |
| PlanNormalize.NormalizedPlan | src/pages/PlanoAula.jsx:47-69 | A plan with `plano.etapas`, or one with no raw text, is kept. Otherwise `plano` is replaced exactly when the recovered value has a plan shape, and then by the plan picked from that value. In every other case the plan is unchanged. |
| PlanNormalize.NormalizePlan | src/contexts/ClassroomContext.jsx:83-104 | A falsy plan gives null, and a plan with `plano.etapas` or without raw text is kept. With no parsing span the plan is unchanged. Otherwise `plano` is replaced exactly when the first parsing span has a plan shape, and then by the plan picked from that span's value. |
| PlanNormalize.QuotedReplyFallsBack | src/pages/PlanoAula.jsx:53-63 | When the quoted-brace span fails to parse, the page falls back to parsing the whole reply. |
| PlanNormalize.QuotedReplyOnPage | src/pages/PlanoAula.jsx:47-69 | The page therefore recovers the plan from `{"a":"}","etapas":[]}`. |
| PlanNormalize.QuotedReplyInContext | src/contexts/ClassroomContext.jsx:83-104 | The classroom context has no whole-text fallback and keeps the same stored reply raw. |
| PlanNormalize.QuotedBraceDivergence | src/contexts/ClassroomContext.jsx:86-103 | The two normalisers disagree on that reply. |
| PlanEdit.WithAulas | src/pages/PlanoAula.jsx:121-122 | Replacing one etapa's aulas leaves every other etapa, every other etapa field, every other `plano` field and every other top-level field as it was. |
| PlanEdit.UpdateAula | src/pages/PlanoAula.jsx:119-124 | The edited aula's field takes the new value and its other keys are kept. The etapa's other aulas, the other etapas, the etapa's other keys, `plano`'s other keys and the plan's other keys are all unchanged. With no `plano`, a missing aula or an aula that is not an object, nothing changes. |
| PlanEdit.NewAulaFields | src/pages/PlanoAula.jsx:130-138 | A new aula has all seven fields the page writes: `numero`, `data` "", `tipo` 'aula', `titulo` 'Nova aula', `conteudo` "", and empty `objetivos` and `referencias`. |
| PlanEdit.AddAula | src/pages/PlanoAula.jsx:126-140 | One aula is appended to the chosen etapa, with all seven default fields and numbered previous length + 1. The earlier aulas are kept in order, and nothing outside the etapa's aula list changes. |
| PlanEdit.RemoveAula | src/pages/PlanoAula.jsx:142-147 | Exactly the aula at the index disappears. The others keep their order and their `numero`, and nothing outside the etapa's aula list changes. |
| PlanEdit.AulaCountReplace | src/pages/PlanoAula.jsx:654 | Replacing one etapa changes the plan's aula total by the difference of the two lengths. |
| PlanEdit.AddAulaCount | src/pages/PlanoAula.jsx:126-140 | Adding an aula raises the saved plan's aula count by one. |
| PlanEdit.RemoveAulaCount | src/pages/PlanoAula.jsx:142-147 | Removing an existing aula lowers the count by one. |
| PlanEdit.UpdateAulaCount | src/pages/PlanoAula.jsx:119-124 | Editing a field never changes the count. |
| Scoring.ValuesWithPrefix | src/pages/Alunos.jsx:14 | A value is selected exactly when some entry with a matching key holds it, and no more values than entries are selected. |
| Scoring.ValuesWithPrefixConcat | src/pages/Alunos.jsx:14 | Selecting from two runs of entries gives the first run's values, then the second's, so order and repeats are kept. |
| Scoring.ValuesWithPrefixSingle | src/pages/Alunos.jsx:14 | A single entry gives its value exactly when its key starts with the prefix. |
| Scoring.GradesIgnoreOtherKeys | src/pages/Alunos.jsx:14-16 | Setting any key that starts with neither "prova" nor "trabalho" (such as `frequencia` or `role`) leaves the grades unchanged. |
| Scoring.FiniteGrades | src/pages/Alunos.jsx:14-15 | The grades are usable numbers exactly when every `Number(v)` is finite. They are then those numbers, in order. |
| Scoring.Round | src/pages/Alunos.jsx:19 | `Math.round` gives the integer nearest to x, with halves rounded up. |
| Scoring.Attendance | src/pages/Alunos.jsx:18 | A missing or falsy `frequencia` counts as 50. Otherwise it is `Number(frequencia)`. |
| Scoring.Score | src/pages/Alunos.jsx:12-20 | A record with no grades and no attendance scores 50. The score is a number exactly when every grade and the attendance coerce to numbers. |
| Scoring.ScoreBounds | src/pages/Alunos.jsx:17-19 | Grades in [0,10] and attendance in [0,100] give a score in [0,100]. |
| Scoring.ScoreOfGradeMonotone | src/pages/Alunos.jsx:17-19 | Raising any one grade never lowers the score. |
| Scoring.ScoreOfAttendanceMonotone | src/pages/Alunos.jsx:17-19 | Raising the attendance figure never lowers the score. |
| Scoring.ScoreRaiseAttendance | src/pages/Alunos.jsx:17-19 | In a record with positive attendance, raising `frequencia` never lowers the score. |
| Scoring.ZeroAttendanceCountsAsFifty | src/pages/Alunos.jsx:18 | A record with attendance 0 scores 50, as if it had 50. Attendance 10 scores 34, which is lower. |
| Scoring.AttendanceOnly | src/pages/Alunos.jsx:17-19 | A record with only `frequencia` scores as if its grade mean were 50, with 0 attendance read as 50. |
| Scoring.ScoreWorkedExample | src/pages/Alunos.jsx:12-20 | Grades 8, 9, 7 with attendance 90 score 84. |
| Scoring.TierOf | src/pages/Alunos.jsx:6-10 | The tiers partition the integers: at least 80 is Ótimo, 60 to 79 is Atenção, below 60 is Risco. |
| Scoring.CardTier | src/pages/Alunos.jsx:22-24 | A student card shows the tier of its score. A NaN score fails both comparisons and shows Risco. |
| Scoring.TierMonotone | src/pages/Alunos.jsx:6-10 | A higher score never gets a worse tier. |
| Scoring.ModalAverage | src/pages/Alunos.jsx:70-71 | The modal shows no average exactly when there are no grades. The average is a number exactly when every grade is. |
| Scoring.ModalAverageAgreesWithScore | src/pages/Alunos.jsx:70-71 | The card's score is the rounded mix of 10 × the modal's average and the attendance. |
| GradeEditor.SavedNumber | src/pages/Alunos.jsx:100 | A finite `Number(value)` is saved as that number, and NaN is sent as null. |
| GradeEditor.FrequencyEntry | src/pages/Alunos.jsx:97-98 | The new extra map starts with `frequencia` only when the attendance input is not empty, and holds no other key. |
| GradeEditor.ApplyEditsFilled | src/pages/Alunos.jsx:99-101 | A key takes the value of its last non-empty row. |
| GradeEditor.ApplyEditsBlank | src/pages/Alunos.jsx:99-104 | A key whose rows are all empty keeps its previous entry. |
| GradeEditor.ApplyEditsConcat | src/pages/Alunos.jsx:99-104 | Saving the provas and then the trabalhos is the same as saving all rows in one pass. |
| GradeEditor.HandleSave | src/pages/Alunos.jsx:94-105 | Every key with a filled row is saved with the number from its last filled row. Any other key without a filled row is absent. `frequencia` comes from the attendance input unless a row overrides it. |
| GradeEditor.AddRowAsWritten | src/pages/Alunos.jsx:84-92 | The add button appends an empty row keyed prefix + (row count + 1). |
| GradeEditor.AddRowAsWrittenCollides | src/pages/Alunos.jsx:84-104 | With a single existing row `prova2`, the new row is also `prova2`, and saving it overwrites the old grade. |
| GradeEditor.AddRow | src/pages/Alunos.jsx:84-92 | The corrected add-row appends an empty row whose key has the prefix and differs from every existing key. With no higher-numbered key present, the key is the one the app uses. |
| GradeEditor.AddRowKeepsBoth | src/pages/Alunos.jsx:84-104 | With the corrected add-row, the old grade and the new grade are both saved. |
| Enrollment.NewStudent | src/pages/Alunos.jsx:379-384 | A new student has the given id and name. The email is the given one or `<id>@escola.com`, and the extra map is `{frequencia: 100}`. |
| Enrollment.RowFields | src/pages/Alunos.jsx:376 | A line gives one field more than it has `,` or `;` separators, and each field is the matching piece of the split, trimmed. |
| Enrollment.CsvRow | src/pages/Alunos.jsx:376-386 | A line becomes a student exactly when it has at least two fields. Its id and name are the first two fields. Its e-mail is the third field when there is one and it is not blank, else `<id>@escola.com`. |
| Enrollment.CsvRows | src/pages/Alunos.jsx:375-387 | Every student read from the data lines is a new student record, and there are no more students than lines. |
| Enrollment.CsvRowsSingle | src/pages/Alunos.jsx:376-386 | One line gives exactly the student that line reads as, or nothing when it has fewer than two fields. |
| Enrollment.CsvRowsConcat | src/pages/Alunos.jsx:375-387 | Reading two runs of lines gives the first run's students, then the second's, so every student comes from its own line, in file order. |
| Enrollment.CsvRowsKeepsAll | src/pages/Alunos.jsx:375-387 | Every line yields a student exactly when every line has a separator. |
| Enrollment.NonBlankLines | src/pages/Alunos.jsx:374 | Every kept line is non-blank and contains no newline. |
| Enrollment.NonBlankLinesCons | src/pages/Alunos.jsx:374 | A non-blank first line is kept in front of the non-blank lines that follow it. |
| Enrollment.CsvStudents | src/pages/Alunos.jsx:373-387 | Every imported record is a new student. For any text, the first non-blank line is dropped as the header and the remaining non-blank lines are read as rows; with one line or none, nothing is imported. |
| Enrollment.CsvHeaderSkipped | src/pages/Alunos.jsx:374-375 | The first non-blank line is the header and is never imported. The rest are imported line by line. |
| Enrollment.ManualStudent | src/pages/Alunos.jsx:341-346 | A student added by hand gets the typed email, or `<id>@escola.com` when it is empty. |
| Dashboard.Mean | src/pages/Dashboard.jsx:40-41 | No grades give mean 0. The mean is a number exactly when every grade coerces to one. |
| Dashboard.MeanBounds | src/pages/Dashboard.jsx:40-41 | Grades within [lo,hi] give a mean within [lo,hi]. |
| Dashboard.NoGradesAtRisk | src/pages/Dashboard.jsx:41-42 | A student with no grade keys is always counted at risk. |
| Dashboard.EmptyRecordNeutralYetAtRisk | src/pages/Dashboard.jsx:38-43 | An empty record scores a neutral 50 on the card, yet the dashboard counts it at risk. |
| Dashboard.LocalAtRiskCount | src/pages/Dashboard.jsx:38-43 | The local count is the number of students the at-risk predicate keeps. |
| Dashboard.AtRiskCount | src/pages/Dashboard.jsx:38-43 | A non-empty AI list decides the count. An empty or missing AI list falls back to the local count. |
| Dashboard.InvisibleCount | src/pages/Dashboard.jsx:44 | The invisible count is the length of the AI list, 0 when the list is missing, and there is no local fallback. |
| Dashboard.AllGrades | src/pages/Dashboard.jsx:49-56 | A value is pooled exactly when it is a grade value of some student. |
| Dashboard.AllGradesConcat | src/pages/Dashboard.jsx:49-56 | Pooling two groups of students gives the first group's grades, then the second's, so the order of students and repeats are kept. |
| Dashboard.AllGradesSingle | src/pages/Dashboard.jsx:49-56 | One student contributes exactly their own grade values: the `prova` entries, then the `trabalho` entries, each group in entry order. |
| Dashboard.MediaGeral | src/pages/Dashboard.jsx:46-58 | A truthy AI `mediaGeral` is shown as is. Otherwise the figure is the pooled mean. |
| Dashboard.PooledMeanBounds | src/pages/Dashboard.jsx:46-58 | Pooled grades within [lo,hi] give a pooled mean within [lo,hi]. |
| Dashboard.PooledNotMeanOfMeans | src/pages/Dashboard.jsx:46-58 | One student with a 10 and one with three 0s give a pooled mean of 2.5, not the mean of means, which is 5. |
| Dashboard.PositiveFreqs | src/pages/Dashboard.jsx:62 | Only positive attendance figures are kept, every student's positive figure is among them, and every kept figure is some student's attendance. |
| Dashboard.PositiveFreqsConcat | src/pages/Dashboard.jsx:62 | The attendances of two groups are the first group's, then the second's, so order and repeats are kept. |
| Dashboard.PositiveFreqsSingle | src/pages/Dashboard.jsx:62 | One student contributes their attendance exactly when it is positive. |
| Dashboard.LocalFreqMean | src/pages/Dashboard.jsx:60-64 | The attendance mean is 0 exactly when no student has positive attendance. |
| Dashboard.FreqMedia | src/pages/Dashboard.jsx:60-64 | A truthy AI `frequenciaMedia` is shown as is. Otherwise the figure is the local mean. |
| Dashboard.FreqMeanBounds | src/pages/Dashboard.jsx:60-64 | Positive figures of at most 100 give a mean in [0,100]. |
| Roster.FetchStudents | src/contexts/ClassroomContext.jsx:19-24 | Keeps the records whose `extra.role` is not 'professor', each as many times as it occurs, and drops the others. A null record makes the fetch fail with an empty list. |
| Roster.FetchStudentsConcat | src/contexts/ClassroomContext.jsx:19-24 | Fetching a reply in two pieces lists the first piece's students ahead of the second's, so the original order is kept. |
| Roster.FetchStudentsSingle | src/contexts/ClassroomContext.jsx:22 | A single record is listed exactly when it is not a professor's. |
| Roster.FetchStudentsIdempotent | src/contexts/ClassroomContext.jsx:22 | Filtering the filtered roster again changes nothing. |
| Roster.AddStudentPayload | src/contexts/ClassroomContext.jsx:35-38 | The payload forces `extra.role = 'aluno'` and keeps every other field and every other extra key. |
| Roster.AddedStudentIsFetched | src/contexts/ClassroomContext.jsx:35-38 | A student added through the form is never filtered out as a professor. |
| Roster.FindStudent | src/contexts/ClassroomContext.jsx:50 | Finds the first student with the id, or reports that none has it. |
| Roster.MergedExtra | src/contexts/ClassroomContext.jsx:52 | Keys in the update win. Every other key keeps its old value. |
| Roster.WithExtra | src/contexts/ClassroomContext.jsx:54 | Only the `extra` field of the student changes. |
| Roster.UpdateStudentData | src/contexts/ClassroomContext.jsx:48-60 | An unknown id or a rejected update fails and leaves the roster as it was. Otherwise the list keeps its length, other students are unchanged, and the matching student's extra is the old map overridden by the update. |
| Roster.ClearedGradeSurvivesSave | src/contexts/ClassroomContext.jsx:52-54 | A grade whose inputs were all emptied in the editor keeps its old value after the merge. |
| Roster.ChosenPlans | src/contexts/ClassroomContext.jsx:149-159 | When a plan of another user is present, only the caller's plans are kept, and every one of the caller's plans in the reply is kept. Every plan comes from the query or is the caller's own from the full list. When the per-user reply leaves nothing, the caller's plans in the full list are listed. In both filtered cases each kept plan appears as many times as in its reply. The listing fails exactly when the per-user reply holds a null, or the full list is consulted and holds one. |
| Roster.ListSavedPlans | src/contexts/ClassroomContext.jsx:145-173 | The listing is a permutation of the chosen plans, newest first. A failed listing is empty. |
| Roster.ListedPlansOwned | src/contexts/ClassroomContext.jsx:152-154 | Once a foreign plan shows up, every listed plan belongs to the caller. |
| Notifications.NewEntry | src/contexts/NotificationContext.jsx:24-25 | The entry has the notification's own `id` or else the generated one, `createdAt` from the clock, and every other field of the notification. |
| Notifications.AddNotification | src/contexts/NotificationContext.jsx:23-26 | Exactly one entry is appended, and the earlier entries are kept. |
| Notifications.DismissDelay | src/contexts/NotificationContext.jsx:28-31 | No timer when `autoDismiss` is false. Otherwise the delay is the truthy `duration`, or 8000. |
| Notifications.RemoveNotification | src/contexts/NotificationContext.jsx:37-39 | Removes exactly the entries with the id; every other entry stays, as many times as it occurred. |
| Notifications.RemoveNotificationConcat | src/contexts/NotificationContext.jsx:37-39 | Removal works piece by piece, so the remaining entries keep their order. |
| Notifications.RemoveNotificationSingle | src/contexts/NotificationContext.jsx:38 | One entry survives exactly when its id differs. |
| Notifications.ClearAll | src/contexts/NotificationContext.jsx:41-43 | The list becomes empty. |
| Notifications.AddThenRemove | src/contexts/NotificationContext.jsx:23-39 | Dismissing a fresh notification by its generated id restores the list. |
| Notifications.OwnIdOutlivesDismissal | src/contexts/NotificationContext.jsx:24-31 | A notification that brings its own `id` is not removed by the timer, which uses the generated id. |
| Notifications.DigestParts | src/contexts/NotificationContext.jsx:47-57 | One part for each non-empty list, with the risk part first, the invisible part next and the suggestions part last. |
| Notifications.DigestMessage | src/contexts/NotificationContext.jsx:63 | The message starts with the first part, ends with the last part, and closes with ". Confira os detalhes no Dashboard." |
| Notifications.DigestMessageExplicit | src/contexts/NotificationContext.jsx:47-63 | The message is the present parts in order, with " · " only between two present parts, followed by ". Confira os detalhes no Dashboard." |
| Notifications.Digest | src/contexts/NotificationContext.jsx:45-66 | A digest exists exactly when some list is non-empty. Its type is 'alert' exactly when students are at risk, otherwise 'insight'. It carries the fixed title, the joined message and a 10-second delay. |
| Notifications.PushAIInsights | src/contexts/NotificationContext.jsx:45-67 | At most one entry is appended, and the list before it is kept. One is appended exactly when some list is non-empty, and it is the digest with its generated id and time. |
| Api.DbCollection | src/services/api.js:73-75 | The name always ends in "__c". A name already ending so is kept, and any other name gets exactly one suffix. |
| Api.DbCollectionIdempotent | src/services/api.js:74 | Naming a collection twice is the same as naming it once. |
| Api.DbGetUrl | src/services/api.js:88-91 | The URL has a "?" exactly when the query is non-empty. The part before it is the collection URL and the part after it is the query. |
| Api.ReplyOr | src/services/api.js:84-85 | A failed response throws. An empty body gives the fallback. Any other body is parsed. |
| Api.WithId | src/services/api.js:104 | `{_id: id, ...data}` has the data's own `_id` when it has one, else `id`, and every other field of the data. |
| Api.DbPost | src/services/api.js:77-86 | An empty reply returns the posted data. A non-empty reply returns its parsed body. A failed one throws. |
| Api.DbPut | src/services/api.js:100-109 | An empty reply returns `{_id: id, ...data}`. A non-empty reply returns its parsed body. A failed one throws. |
| Api.DbDelete | src/services/api.js:111-119 | An empty reply returns `{_id: id}` alone. A non-empty reply returns its parsed body. A failed one throws. |
| Api.DbUpsert | src/services/api.js:124-130 | The update always goes first. A create carrying the same body follows exactly when the update fails, and its result is then returned. |
| Api.AcceptedPutDoesNotCreate | src/services/api.js:124-130 | An accepted update with an empty reply never creates. |
| Api.UnparsablePutCreates | src/services/api.js:124-130 | An accepted update whose reply does not parse still leads to a create. |
| Text.Trim | src/pages/Alunos.jsx:374 | `trim()` removes exactly the leading and trailing white space, and what remains is a contiguous piece of the input. |
| Text.Split | src/pages/Alunos.jsx:376 | Splitting gives one piece more than there are separators, and no piece contains a separator. |
| Text.SplitRebuild | src/pages/Alunos.jsx:376 | Putting the separator characters of the text back between the pieces, in order, rebuilds the text. Since no piece holds a separator, this fixes every piece. |
| Text.SplitJoin | src/pages/Alunos.jsx:374 | Joining the pieces of a split with the separator gives back the text. |
| Seqs.Filter | src/contexts/ClassroomContext.jsx:22 | `filter` keeps exactly the elements that satisfy the predicate, and never lengthens the list. |
| Seqs.FilterCount | src/contexts/ClassroomContext.jsx:22 | Each element that satisfies the predicate is kept as many times as it occurs, and every other element is dropped. |
| Seqs.FilterConcat | src/contexts/ClassroomContext.jsx:22 | Filtering distributes over concatenation, so the kept elements stay in their original order. |
| Seqs.FilterSingleton | src/contexts/ClassroomContext.jsx:22 | One element is kept exactly when it satisfies the predicate. |
| Seqs.FilterIdempotent | src/contexts/ClassroomContext.jsx:22 | Filtering twice is filtering once. |
| Seqs.SortDesc | src/contexts/ClassroomContext.jsx:161-165 | The sort returns a permutation ordered by descending key. |
| JsonData.Spread | src/contexts/ClassroomContext.jsx:52 | In `{...a, ...b}` every key of `b` wins and every other key comes from `a`. |
| JsonData.Set | src/pages/Alunos.jsx:100 | Assigning a property sets that key and leaves every other key as it was. |
| Text.NatToStringRoundTrip | src/pages/Alunos.jsx:85-86 | Printing a row number in decimal and reading the digits back gives the same number. |

## Left out

- Network, SDK and authentication are not modelled: `callGemini`, every `fetch` and its headers, and the login/token flow. A response is a parameter, `Response(ok, body)`, and the update's outcome is a boolean `accepted`.
- `JSON.parse` is a parameter rather than a JSON grammar, so the properties hold for any parser.
- IEEE-754 doubles are replaced by exact reals: `toFixed`, `toLocaleDateString` and float rounding error are not modelled. `Math.round(x)` is `Floor(x + 0.5)`.
- `Number()` of a string recognises an optional sign, digits and an optional fraction, with surrounding white space. Exponents, hexadecimal, "Infinity" and other literal forms yield NaN here.
- Timers and randomness are parameters: the generated notification id and the clock are arguments. The auto-dismiss timer is modelled as the removal it performs.
- Dates in the saved-plan listing are a function `time` from the stamp value to an integer. The ordering of plans with equal stamps (JavaScript's stable sort) is not pinned down. The listing is specified as a descending permutation.
- React state, hooks, rendering and routing are not modelled, nor are the pages Landing, Login, Register and Chat, the layout and App shells, the auth context, file reading and the prompt templates.
- `===` on ids is modelled as structural equality of JSON values. Two distinct objects with equal contents would compare unequal in JavaScript, but ids are strings or numbers in practice.
- Spreading a truthy value that is not an object, such as a string `extra`, contributes no keys here. JavaScript would spread a string's characters.
- Objects with a `length` key are not treated as having a length. `o?.length || 0` counts only arrays and strings.
- A JavaScript array stored as an aula and updated with `updateAula` would gain a property. The model leaves any non-object aula unchanged.
- AiClient.PlanFromText: its own contract states the possible outcomes only. The exact result on each path is stated by `AiClient.DirectPlanReturned`, `AiClient.DirectWithoutPlanFallsThrough` and `AiClient.SliceReturnedUngated`.
- AiClient.GenerateLessonPlan: its own contract states the possible outcomes and the raw fallback. `AiClient.PlanOnCleanedText` reduces it to `AiClient.PlanFromText` on the cleaned reply, and `AiClient.FencedReplySamePlan` covers fenced replies.
- GradeEditor.SavedNumber: states the value as it is sent to the server. The in-memory `newExtra` the page keeps after saving holds NaN itself, not null; the model has one value for both.
- Enrollment.CsvRows: its own contract states a length bound and the shape of each record, not which student each line becomes or their order. `Enrollment.CsvRowsSingle` and `Enrollment.CsvRowsConcat` state both, `Enrollment.CsvRowsKeepsAll` states when nothing is dropped, and `Enrollment.CsvStudents` inherits all three through its header-skip clause.
- Dashboard.AllGrades: within one student the pooled list has the `prova` entries before the `trabalho` entries, while the dashboard's loop walks the record's entries in insertion order. The sum and the count, and so the pooled mean, are the same either way; only the order inside one student differs.
- Dashboard.InvisibleCount: the contract states the array and missing cases only. A string-valued `alunosInvisiveis` counts its Unicode scalar values here, while JavaScript's `length` counts UTF-16 code units (a character outside the Basic Multilingual Plane counts twice there), and the contract does not state that case.
- Objects with a repeated key: a parsed object may hold the same key twice. `Lookup` reads the last entry, as JavaScript does, but `Scoring.ValuesWithPrefix` and so `Dashboard.AllGrades` walk every entry and count the shadowed values too, where a JavaScript object would hold one. Objects built by the application itself never repeat a key, because `JsonData.Set` replaces in place.
- Enrollment.NonBlankLines: states that every kept line is non-blank and has no newline, not that every non-blank line is kept in order. `Enrollment.NonBlankLinesCons` states the step that the header skip needs.

## Findings

| source | as written | input that shows it | evidently intended | confidence | as-written member | corrected member |
|---|---|---|---|---|---|---|
| src/pages/Alunos.jsx:84-92 | The new grade row is keyed `prova${editProvas.length + 1}` (likewise `trabalho…`). | A student whose only grade is `prova2: 6`. Adding a row creates a second `prova2`, and saving a 9 in it overwrites the 6. | A fresh key that no existing row uses. | not executed | GradeEditor.AddRowAsWritten, GradeEditor.AddRowAsWrittenCollides | GradeEditor.AddRow, GradeEditor.AddRowKeepsBoth |

The two plan normalisers also differ in behaviour. A reply such as
`{"a":"}","etapas":[]}` is recovered by the lesson-plan page through its
whole-text fallback, but stays raw in the classroom context
(`PlanNormalize.QuotedBraceDivergence`). This may be deliberate, so it is
recorded as behaviour rather than as a finding.
