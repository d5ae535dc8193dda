# School management back end: verified model of its core logic

This project models, in Dafny, the parts of a school-management system that hold real
logic. The rest of the system is a React front end and database CRUD controllers.

- **Attendance registry** (`attendance.dfy`). An in-memory registry of teachers, students
  and academic periods, plus an append-only attendance log.
  - Duplicate keys are refused on insert.
  - A date resolves to the first period, in insertion order, that contains it.
  - Registering attendance checks the period before the person.
  - A period's listing keeps append order.
- **Student name normalisation** (`text.dfy`, `student_names.dfy`).
  - An explicit last or full name is kept, trimmed, when it is not blank.
  - Otherwise the name parts are trimmed, blank parts are dropped, and the rest are joined
    with single spaces.
  - Creating and updating a student store the normalised names, and fail on a taken id or
    a repeated email, as the primary key and the unique `Email` index make them fail.
- **IQ tests** (`iq_tests.dfy`).
  - Scoring a submitted attempt: maximum score, raw score, and one answer row per answered
    question.
  - The answer-dictionary check against duplicate answers.
  - The choice of the test a student may take now: the latest eligible assignment, inside an
    inclusive date window.
  - The upsert of a test-to-group assignment.
- **Question pools** (`question_pools.dfy`).
  - Numbering the options of generated questions.
  - Picking the correct option, either by an index answer or by exact text.
  - Copying a pool into an exam.
  - The pool-id guard on adding a question.
  - `int.TryParse` is modelled with a decimal formatter, and a round trip is proved.
- **`Materia` domain object** (`json.dfy`, `materia.dfy`).
  - The required name, and the defaults.
  - The null-coalescing in-place `update`.
  - The `toJSON` / `toN8nPayload` / `fromPlain` views.
- **Bracket checkers** (`source_scan.dfy`, `bracket_stack.dfy`, `bracket_counter.dfy`).
  - Both skip quoted strings the same way, resetting at every line.
  - One uses a stack, reporting imbalances and mismatches and counting unclosed openers.
  - The other uses three counters and stops early on an extra `)` or `}`.

How state is represented:

- State the source changes in place is a Dafny `class`: `AttendanceModel`, `TestGroupTable`
  and `Materia`.
- Database tables are values: maps and sequences passed in and returned.
- Clock readings, generated identifiers, and ids assigned by the database are parameters.
- Two scenario methods in `attendance.dfy` step the registry through:
  - overlapping periods;
  - a duplicate period;
  - registrations refused for each reason.

## Model

| member | source | states |
|---|---|---|
| Attendance.ContainsBounds | attendance_model.py:32-35 | both bounds are inclusive; a period whose end is before its start contains no date |
| Attendance.FirstCoveringSpec | attendance_model.py:102-106 | the lookup finds nothing exactly when no period covers the date, and otherwise the first covering period in order |
| Attendance.RecordsForMembers | attendance_model.py:138 | a record is listed for a period exactly when it is in the log under that period's name |
| Attendance.RecordsForOrder | attendance_model.py:124-138 | the listing of a period is a strictly increasing selection of log positions: every listed record is the log entry at its position, in log order, and every log position of that period is selected |
| Attendance.RecordsForCount | attendance_model.py:124-138 | each record occurs in a period's listing as often as in the log when it belongs to that period, and not at all otherwise |
| Attendance.FindCovering | attendance_model.py:103-106 | the loop over the periods returns the first one containing the date, or none |
| Attendance.SoundLogGrows | attendance_model.py:85-100 | adding a teacher, a student or a new period keeps every logged record tied to a known person and to a stored period containing its date |
| Attendance.SoundLogAppend | attendance_model.py:117-132 | a record whose person is known and whose period is stored and contains its date can be appended without breaking that invariant |
| Attendance.OrderAppend | attendance_model.py:97-103 | a new period name goes at the end of the iteration order, which still lists every stored name once, and the listed periods gain the new period at the end |
| Attendance.FirstCoveringStored | attendance_model.py:102-106 | over the stored periods in iteration order, the period found is stored and contains the date, and none is found exactly when no stored period contains it |
| Attendance.AttendanceModel.constructor | attendance_model.py:78-82 | all four collections start empty |
| Attendance.AttendanceModel.AddTeacher | attendance_model.py:85-88 | a new id is stored; an existing id is refused with `teachers` unchanged; nothing else changes |
| Attendance.AttendanceModel.AddStudent | attendance_model.py:91-94 | a new id is stored; a duplicate is refused with `students` unchanged; nothing else changes |
| Attendance.AttendanceModel.AddPeriod | attendance_model.py:97-100 | keyed by name, appended to the iteration order, with no start/end check; a duplicate name is refused and nothing changes |
| Attendance.AttendanceModel.GetPeriodForDate | attendance_model.py:102-106 | the first stored period, in insertion order, containing the date; none exactly when no stored period covers it |
| Attendance.AttendanceModel.RegisterAttendance | attendance_model.py:109-133 | the period check comes before the person check; the call succeeds iff the date is covered and the person is a student or a teacher; on success one record with the resolved period and the given fields is appended; otherwise nothing changes |
| Attendance.AttendanceModel.ListAttendanceForPeriod | attendance_model.py:135-138 | an unknown period is refused; otherwise the listing is the log filtered to that period, so it holds exactly that period's records, in log order and with their multiplicities; nothing changes |
| Text.TrimStart | backend/Controllers/StudentsController.cs:104 | drops a blank prefix, and the result does not start with white space |
| Text.TrimEnd | backend/Controllers/StudentsController.cs:104 | drops a blank suffix, and the result does not end with white space |
| Text.Trim | backend/Controllers/StudentsController.cs:104-110 | the result has no white space at either end, and is empty exactly when the input is blank |
| Text.TrimIsInfix | backend/Controllers/StudentsController.cs:104 | the trimmed text is the infix of the input between a blank prefix and a blank suffix |
| Text.TrimOfTrimmed | backend/Controllers/StudentsController.cs:110 | trimming text that has no surrounding white space changes nothing |
| Text.TrimIdempotent | backend/Controllers/StudentsController.cs:104 | trimming twice is trimming once |
| Text.TrimStartBlankPrefix | backend/Controllers/StudentsController.cs:104 | a blank prefix before text that does not start with white space is removed, and nothing more |
| Text.TrimEndBlankSuffix | backend/Controllers/StudentsController.cs:104 | a blank suffix after text that does not end with white space is removed, and nothing more |
| Text.TrimPadded | backend/Controllers/StudentsController.cs:104 | trimming a trimmed text padded with blank prefix and suffix gives back exactly that text |
| Text.JoinShape | backend/Controllers/StudentsController.cs:107-110 | a join of parts starts with the first part and is as long as the parts plus one separator between each two neighbours |
| Text.JoinTrimmed | backend/Controllers/StudentsController.cs:107-110 | joining non-empty trimmed parts with a space gives a trimmed string that is empty only for no parts |
| StudentNames.TrimmedParts | backend/Controllers/StudentsController.cs:108-109 | no more parts are kept than were given |
| StudentNames.TrimmedPartsTrimmed | backend/Controllers/StudentsController.cs:108-109 | every kept part is non-empty and trimmed |
| StudentNames.TrimmedPartsEmpty | backend/Controllers/StudentsController.cs:108-109 | no part is kept exactly when every part is blank |
| StudentNames.Normalize | backend/Controllers/StudentsController.cs:100-125 | the result is trimmed and is empty exactly when the current value and every part are blank |
| StudentNames.JoinTrimmedPartsCons | backend/Controllers/StudentsController.cs:107-109 | joining the kept parts is joining the first trimmed part, if not blank, with the join of the rest |
| StudentNames.NormalizeBlankCurrent | backend/Controllers/StudentsController.cs:107-110 | with a blank current value the final trim does nothing to the join of the kept parts |
| StudentNames.NormalizeLastName | backend/Controllers/StudentsController.cs:100-111 | a non-blank current last name is returned trimmed; otherwise paternal then maternal, trimmed, blanks dropped, joined by one space; the result is trimmed, and empty iff all inputs are blank |
| StudentNames.NormalizeFullName | backend/Controllers/StudentsController.cs:113-125 | the same rule as the last name, over first, paternal and maternal parts in that order |
| StudentNames.FullNameIsFirstThenLastName | backend/Controllers/StudentsController.cs:100-125 | with no current values, the full name is the first name followed by the normalised last name |
| StudentNames.NormalizeIdempotent | backend/Controllers/StudentsController.cs:100-125 | feeding a result back in as the current value yields the same result |
| StudentNames.NormalizeNamesIdempotent | backend/Controllers/StudentsController.cs:100-125 | both name rules are idempotent in the same way |
| StudentNames.CreateStudent | backend/Controllers/StudentsController.cs:39-48 | an id already stored fails as a duplicate key, then an email another student has fails as a duplicate email, and the call succeeds exactly when neither holds; then the payload is stored under its own id, or the assigned one when its id is 0, with both names normalised; the keys gain only that id and other students are unchanged |
| StudentNames.CreateKeepsStoreValid | backend/Data/AppDbContext.cs:26-31 | a successful create keeps every student under its own id and every email unique |
| StudentNames.CreateRefusesRepeatedEmail | backend/Data/AppDbContext.cs:30-31 | a create repeating a stored student's email fails, whatever key it would use |
| StudentNames.UpdateStudent | backend/Controllers/StudentsController.cs:51-83 | an id mismatch is refused before the lookup, an unknown id is not found, and then an email another student has fails as a duplicate email; the call succeeds exactly when all three pass; then the keys are unchanged, other students are unchanged, and every listed field is copied, the names normalised, while id and creation time are kept |
| StudentNames.UpdateKeepsStoreValid | backend/Data/AppDbContext.cs:26-31 | a successful update keeps every student under its own id and every email unique |
| StudentNames.StoredEmailIsFree | backend/Data/AppDbContext.cs:30-31 | in a store with unique emails, no other student has a stored student's email |
| StudentNames.UpdateWithStoredNamesIsStable | backend/Controllers/StudentsController.cs:51-83 | in a store with unique emails, updating a student with its own already-normalised record succeeds and leaves the store unchanged |
| IqTests.AnswerDictionary | bakend/Backend.API/Controllers/IqTestsController.cs:196 | building the answer dictionary fails only with a duplicate-question error naming a submitted question |
| IqTests.AnswerDictionarySucceeds | bakend/Backend.API/Controllers/IqTestsController.cs:196 | the dictionary is built exactly when no question id is submitted twice |
| IqTests.AnswerDictionaryKeys | bakend/Backend.API/Controllers/IqTestsController.cs:196 | the dictionary's keys are exactly the submitted question ids, each mapped to its submitted option |
| IqTests.SelectionIsCorrectSpec | bakend/Backend.API/Controllers/IqTestsController.cs:213-214 | a selection is correct only if it names a correct option of the question; an id naming no option is incorrect; with distinct option ids the "only if" becomes an equivalence |
| IqTests.FirstOptionSpec | bakend/Backend.API/Controllers/IqTestsController.cs:213 | the option found is the first with that id, and none is found exactly when no option has it |
| IqTests.ScoreBounds | bakend/Backend.API/Controllers/IqTestsController.cs:192-233 | with non-negative scores, 0 <= raw score <= maximum score |
| IqTests.FullScoreIffAllCorrect | bakend/Backend.API/Controllers/IqTestsController.cs:206-219 | with positive scores, the raw score equals the maximum exactly when every question is answered correctly |
| IqTests.AnswerRowsFaithful | bakend/Backend.API/Controllers/IqTestsController.cs:211-228 | there are no more rows than questions, and each row carries a question of the test that was answered, the option submitted for it, and that option's verdict |
| IqTests.AnswerRowsCover | bakend/Backend.API/Controllers/IqTestsController.cs:206-228 | every answered question of the test has its row, with the submitted option and its verdict |
| IqTests.AnswerRowsDistinct | bakend/Backend.API/Controllers/IqTestsController.cs:206-228 | when the test's question ids are distinct, no two rows name the same question |
| IqTests.AllAnsweredRows | bakend/Backend.API/Controllers/IqTestsController.cs:206-228 | when every question is answered, there is one row per question in section-then-question order |
| IqTests.ForeignAnswerIgnored | bakend/Backend.API/Controllers/IqTestsController.cs:211 | an answer to a question id outside the test changes neither the score nor the rows |
| IqTests.ScoreAnswers | bakend/Backend.API/Controllers/IqTestsController.cs:206-230 | the nested loops compute the sum of all scores, the sum over correctly answered questions, and the rows of answered questions in order |
| IqTests.SubmitTestAttempt | bakend/Backend.API/Controllers/IqTestsController.cs:178-239 | first the student check, then the test check, then duplicate answers; the call succeeds exactly when all pass, and the attempt carries the given ids and start, the completion time, both scores and the answer rows |
| IqTests.FindAssignment | bakend/Backend.API/Controllers/IqTestsController.cs:114-115 | the first row for the (test, group) pair, and none exactly when no row has that pair |
| IqTests.TestGroupTable.constructor | bakend/Backend.API/Controllers/IqTestsController.cs:114 | the table starts with the given rows |
| IqTests.TestGroupTable.AssignTestToGroup | bakend/Backend.API/Controllers/IqTestsController.cs:112-140 | an existing row for the pair gets the new flag and dates and keeps its creation time; otherwise a row stamped now is appended; at most one row per pair is kept; the returned row is the stored one |
| IqTests.LatestEligibleSpec | bakend/Backend.API/Controllers/IqTestsController.cs:154-161 | the chosen assignment exists exactly when some row is the group's, active, and for an active test; then no eligible row is newer |
| IqTests.IneligibleRowIgnored | bakend/Backend.API/Controllers/IqTestsController.cs:159 | a row of another group, an inactive row, or a row for a missing or inactive test never changes the chosen assignment |
| IqTests.WindowSpec | bakend/Backend.API/Controllers/IqTestsController.cs:168-171 | a window without bounds is always open, one ending before it starts is never open, and one starting and ending at the same instant is open at that instant only |
| IqTests.GetActiveTestForStudent | bakend/Backend.API/Controllers/IqTestsController.cs:144-174 | an unknown student or one without a group is not found; a test is returned exactly when the latest eligible assignment's window holds now, both bounds inclusive and absent bounds open; the test returned is that assignment's test, and it is active |
| IqTests.ExpiredLatestHidesOlder | bakend/Backend.API/Controllers/IqTestsController.cs:154-173 | only the latest assignment is considered: if it has expired, an older one still open is not offered |
| QuestionPools.ParseInt32 | bakend/Backend.API/Controllers/QuestionPoolsController.cs:194 | a parsed value is a 32-bit integer read from trimmed sign-and-digits text |
| QuestionPools.ParseIntegerText | bakend/Backend.API/Controllers/QuestionPoolsController.cs:194 | blank padding, an optional sign and decimal digits parse as the signed value of the digits when it fits in 32 bits, and do not parse otherwise |
| QuestionPools.NatDigits | bakend/Backend.API/Controllers/QuestionPoolsController.cs:194 | decimal digits whose value is the number |
| QuestionPools.ParseFormatRoundTrip | bakend/Backend.API/Controllers/QuestionPoolsController.cs:194 | every 32-bit integer parses back from its decimal notation |
| QuestionPools.NoDigitNoNumber | bakend/Backend.API/Controllers/QuestionPoolsController.cs:194 | a text without a digit never parses |
| QuestionPools.OptionsFor | bakend/Backend.API/Controllers/QuestionPoolsController.cs:186-201 | options keep input order and text, with ids 1, 2, …, n |
| QuestionPools.LastCorrectIdSpec | bakend/Backend.API/Controllers/QuestionPoolsController.cs:188-198 | the correct id is the id of the last correct option, and 1 when none is correct |
| QuestionPools.NumericAnswerSelectsIndex | bakend/Backend.API/Controllers/QuestionPoolsController.cs:192-198 | an answer that parses as k makes the option at 0-based index k the only correct one; the correct id is k + 1 if that index exists and 1 otherwise |
| QuestionPools.TextAnswerMatchesText | bakend/Backend.API/Controllers/QuestionPoolsController.cs:192-198 | an answer that does not parse marks exactly the options whose text equals it; the correct id is the last such option's id, or 1 |
| QuestionPools.NumericTextIsReadAsIndex | bakend/Backend.API/Controllers/QuestionPoolsController.cs:192-196 | options "1" and "2" with answer "2": no option is correct and the correct id stays 1 |
| QuestionPools.MarkOptions | bakend/Backend.API/Controllers/QuestionPoolsController.cs:186-201 | the option loop numbers the options from 1 in order, marks each by the integer reading of the answer when there is one and by its text otherwise, and returns the id of the last marked option, or 1 |
| QuestionPools.MapOptions | bakend/Backend.API/Controllers/QuestionPoolsController.cs:186-201 | the options built are those of `OptionsFor`, with the last-correct id |
| QuestionPools.QuestionsOfMembers | bakend/Backend.API/Controllers/QuestionPoolsController.cs:86-88 | a pool's questions are exactly the table rows with its pool id |
| QuestionPools.QuestionsOfAppend | bakend/Backend.API/Controllers/QuestionPoolsController.cs:76-78 | adding rows to the table adds them, in order, to the questions of their pool |
| QuestionPools.AddQuestion | bakend/Backend.API/Controllers/QuestionPoolsController.cs:62-80 | a pool-id mismatch is refused before the pool lookup, then an unknown pool is not found; otherwise the question is appended |
| QuestionPools.AddQuestionKeepsPools | bakend/Backend.API/Controllers/QuestionPoolsController.cs:62-80 | adding keeps every question attached to a stored pool, and puts the new question last in its pool |
| QuestionPools.FromGenerated | bakend/Backend.API/Controllers/QuestionPoolsController.cs:203-212 | a generated question becomes a "multiple_choice" pool question worth 1 point, in the pool, with its text |
| QuestionPools.Created | bakend/Backend.API/Controllers/QuestionPoolsController.cs:181-214 | one pool question per generated question, each made from the generated question at the same position |
| QuestionPools.GenerateQuestions | bakend/Backend.API/Controllers/QuestionPoolsController.cs:134-218 | an unknown pool is not found; otherwise there is exactly one pool question per generated question, in order, the created questions are appended to the question table, and they are returned |
| QuestionPools.GenerateKeepsPools | bakend/Backend.API/Controllers/QuestionPoolsController.cs:215-216 | saving the created questions keeps every question attached to a stored pool, and puts them last in their pool, in order |
| QuestionPools.CopyQuestion | bakend/Backend.API/Controllers/QuestionPoolsController.cs:115-124 | the copy belongs to the activity, keeps text, points, options and answer, and is "MULTIPLE_CHOICE" exactly for a "multiple_choice" question and "OPEN" otherwise |
| QuestionPools.CreateExamFromPool | bakend/Backend.API/Controllers/QuestionPoolsController.cs:84-130 | an unknown pool is not found and an empty pool is refused; otherwise an unpublished "Examen" of the pool's teacher is created, with the request's description or else the pool's, holding a copy of every question in order with its text, points, options and answer, and type code "MULTIPLE_CHOICE" for a "multiple_choice" question and "OPEN" for any other |
| QuestionPools.GeneratedQuestionsCopyAsMultipleChoice | bakend/Backend.API/Controllers/QuestionPoolsController.cs:115-214 | questions generated into an empty pool come out of an exam as multiple-choice, one point each, with the generated options |
| QuestionPools.AllOfPool | bakend/Backend.API/Controllers/QuestionPoolsController.cs:86-88 | a table whose rows all belong to one pool is that pool's question list |
| Json.FalsyValues | backend/src/models/Materia.js:17-23 | the values that the name check and the description default treat as falsy are exactly `null`, `false`, `0` and the empty string |
| Json.Prop | backend/src/models/Materia.js:8-35 | a property is present exactly for an object that has the key; anything else reads as undefined |
| Materias.Construct | backend/src/models/Materia.js:8-28 | null cannot be destructured; construction succeeds exactly when `nombre` is truthy; `descripcion` becomes '' when falsy; the other fields take their defaults only when missing |
| Materias.DataToJson | backend/src/models/Materia.js:57-67 | an object with exactly the seven field names, mapping each to its field |
| Materias.ConstructIsWellFormed | backend/src/models/Materia.js:17-23 | a constructed object has a truthy name and a truthy or empty description |
| Materias.FromPlainToJsonRoundTrip | backend/src/models/Materia.js:57-71 | `fromPlain(toJSON())` reproduces every field exactly when the object is well formed, whatever id and clock it would have used |
| Materias.Merge | backend/src/models/Materia.js:30-38 | each of the four fields is replaced unless the payload value is null or missing; id and creation time are kept; the update time becomes now |
| Materias.MergeEmptyPayload | backend/src/models/Materia.js:30-36 | an empty or all-null payload refreshes only the update time |
| Materias.MergeIdempotent | backend/src/models/Materia.js:30-36 | applying the same payload twice is the same as applying it once |
| Materias.UpdateMayBlankName | backend/src/models/Materia.js:17-32 | an update with `nombre: ""` is accepted and leaves an object `fromPlain` refuses to rebuild |
| Materias.Materia.FromData | backend/src/models/Materia.js:21-27 | the seven fields are stored as given |
| Materias.Materia.New | backend/src/models/Materia.js:8-28 | the constructor builds the object `Construct` describes, or throws its error |
| Materias.Materia.FromPlain | backend/src/models/Materia.js:69-71 | `fromPlain` is the constructor |
| Materias.Materia.Update | backend/src/models/Materia.js:30-38 | a missing payload is `{}`; a null payload throws with nothing changed; otherwise the fields are merged in place and the object itself is returned |
| Materias.Materia.ToJson | backend/src/models/Materia.js:57-67 | the seven fields under their own names |
| Materias.Materia.ToN8nPayload | backend/src/models/Materia.js:43-55 | an object whose only property `json` is exactly `toJSON()` |
| SourceScan.QuoteFreeLineIsCode | front/scripts/debug_syntax.cjs:16-36 | on a line without quote characters every character is code |
| SourceScan.InStringUntil | front/scripts/debug_syntax.cjs:25-36 | after an opening quote, the scan stays in that string until the first unescaped instance of the same quote |
| SourceScan.SkipQuoted | front/scripts/debug_syntax.cjs:25-36 | a quoted stretch, other quote kinds and brackets included, is skipped, and code resumes after its closing quote |
| SourceScan.EscapedBackslashKeepsString | front/scripts/debug_syntax.js:31 | in `"a\\"` the last quote follows a backslash and so does not close the string |
| BracketStack.StepSpec | front/scripts/debug_syntax.cjs:38-58 | only openers push, tagged with the line; a closer pops exactly when the top is its opener; on an empty stack it reports an imbalance; against a different opener it reports a mismatch and leaves the stack as it was |
| BracketStack.AfterCharsOrdered | front/scripts/debug_syntax.cjs:22-59 | scanning a line keeps the stack ordered within the current line bound |
| BracketStack.OrderedStackWeaken | front/scripts/debug_syntax.cjs:16 | an ordered stack stays ordered under a larger line bound |
| BracketStack.StackOrdered | front/scripts/debug_syntax.cjs:16-60 | the stack holds only openers, tagged with lines already read, non-decreasing from bottom to top |
| BracketStack.AfterCharsHeight | front/scripts/debug_syntax.cjs:22-59 | within a line, reports only grow, and the height changes by openers minus closers plus new reports |
| BracketStack.StackHeight | front/scripts/debug_syntax.cjs:16-66 | earlier reports are kept; the unclosed total equals openers minus closers plus reports, so it is openers minus closers when nothing was reported |
| BracketStack.MismatchKeepsOpener | front/scripts/debug_syntax.cjs:48-55 | on the line `(]` the opener stays open and the mismatch is reported |
| BracketStack.CheckNesting | front/scripts/debug_syntax.cjs:14-66 | the loops compute the reports and the unclosed stack; the printed total is the stack length |
| BracketCounter.EarlyExit | front/scripts/debug_syntax.js:51-60 | a stop within the first lines is at one of those lines |
| BracketCounter.EarlyExitSpec | front/scripts/debug_syntax.js:51-60 | an exit happens exactly when the parenthesis or brace counter is negative after some line; it is at the first such line and names the parenthesis exactly when that counter is negative there |
| BracketCounter.EarlyExitStable | front/scripts/debug_syntax.js:51-60 | once the scan stops, later lines do not matter |
| BracketCounter.OutcomeSpec | front/scripts/debug_syntax.js:18-66 | the final balances are printed exactly when no stopping counter ever goes negative, and they are the three whole-file balances; otherwise the report is for the first line after which one is negative, and names the parenthesis exactly when its counter is |
| BracketCounter.OutcomeReportsLine | front/scripts/debug_syntax.js:51-59 | a report of an extra closer shows the content of its line, trimmed |
| BracketCounter.SquaresNeverStop | front/scripts/debug_syntax.js:51-60 | a negative square-bracket counter does not stop the scan |
| BracketCounter.CheckedAtLineEndOnly | front/scripts/debug_syntax.js:18-60 | `)(` on one line does not stop the scan |
| BracketCounter.ScanLine | front/scripts/debug_syntax.js:24-49 | after a line, each counter has grown by that line's openers minus closers outside strings |
| BracketCounter.ScanLines | front/scripts/debug_syntax.js:18-61 | the loop over the lines stops at the first line after which the parenthesis or brace counter is negative; when it does not stop, the counters are the whole-file balances |
| BracketCounter.CheckBalance | front/scripts/debug_syntax.js:18-66 | the script prints the first extra closing parenthesis or brace with its trimmed line, or else the final balances |

## Left out

- Database plumbing is not modelled: `SaveChangesAsync`, `Include`, entity states, concurrency
  exceptions and HTTP result objects. Tables are values, and results are `Result` values.
- Clock readings (`DateTime.UtcNow`, `new Date().toISOString()`) and `uuid()` are parameters
  and are not modelled.
- Database-assigned ids are parameters. StudentNames.CreateStudent takes the id the identity
  column would give a student posted with id 0 as `newId`, which must be unused.
- StudentNames: the maximum lengths of the name and email columns, and their required-value
  checks, are not modelled; only the primary key and the unique `Email` index are.
- The creation timestamps of pool, activity and answer rows are omitted.
- The IQ figure `(int)((double)totalScore / maxScore * 160)` and the student's `IqScore`
  update are not modelled: they are floating point, and they divide by zero when the maximum
  is 0.
- IqTests.ScoreAnswers: does not model 32-bit wrap-around of the score sums, because scores
  are unbounded integers.
- QuestionPools.MapOptions: reads the answer as an integer once, before the option loop
  (`MarkOptions`). The source reads it again for each option; the reading is the same every
  time.
- IqTests.LatestEligible: ties in creation time go to the earliest row in table order. The
  SQL query leaves that order unspecified.
- QuestionPools.GenerateQuestions: the n8n webhook call, its configuration and error codes,
  JSON deserialisation, and the catch-all error are not modelled, because they are network and
  library I/O.
  - The generated questions are given as parsed records.
  - An absent reply is the empty list.
- QuestionPools: the JSON option and answer columns hold the values they would serialise,
  not their text.
- QuestionPools.ParseInt32: models `int.TryParse` with the invariant culture only: surrounding
  ASCII white space, an optional sign, then decimal digits. Trailing NUL characters and
  culture-specific signs are not modelled.
- Text.Trim: uses the fixed white-space set (space, tab, line feed, vertical tab, form feed,
  carriage return). The Unicode spaces that .NET `Trim`, `IsNullOrWhiteSpace` and JavaScript
  `trim` also remove are not modelled.
- StudentNames: C# `null` strings are not modelled; a name is always a string, and the empty
  string stands for an absent name.
- StudentNames: `backend/Models/Student.cs` does not declare the paternal and
  maternal names, parents' names or health fields. These are the fields the controller
  copies, taken from the controller.
- Json: numbers are integers. NaN, `-0` and fractions, which also count for truthiness, are
  not modelled.
- Materias.Materia.New: the constructor's argument must be a JSON value. Calling it with
  `undefined` throws like `null`, and that case is not modelled.
- The bracket scripts' file reading, `console.log` output and `process.exit` are not
  modelled.
  - The file is a sequence of lines.
  - The output is a sequence of reports, or an outcome value.
- The React front end, the remaining CRUD controllers, authentication, the AI and n8n
  controllers, and the JSON file repository are not part of this model.
