# Exam engine of testifyhq / certifyme

This project models the exam-taking engine of the testifyhq / certifyme practice-exam
platform in Dafny. ISTQB-style exams are served as JSON files with questions, options
and a `respuesta_correcta`, a pass mark `minimo_aprobacion` and feedback thresholds
`retroalimentacion`. The engine has been written several times, and each version is modelled
on its own terms:

- **React application (testifyhq).** A session store holds the current question, the
  answers, the countdown and the started/completed flags; a countdown hook renders it; a
  results page grades exact answers against a 65 % threshold. Around it sit the form
  validators and password meter, the one-time-code input, the donation prompt counter, the
  exam migrations into the database and the PayPhone payment webhook.
- **certifyme pages.** Two questions per page are kept in an answers array saved in local
  storage under `answers_<slug>`. A results page marks each question correct (exact set
  match), partial or wrong. The single-page router has its own detail view. An access gate
  lets premium users take any exam and free users take each exam once per day, on the client
  side and on the server side. There is also a QA practice lab with a login form, a
  registration form, a filterable and sortable table and a todo list.
- **First version (`js/`).** Answers are kept in an object keyed by question number, and
  credit is partial: a fraction of the correct options, with wrong picks not penalised.

State that the source changes in place is a Dafny `class` whose methods carry `modifies`
clauses. Examples are the store, the question pages, local storage, the donation hook, the
code input, the lab table and todo list, and the database tables of the migrations and the
webhook. Pure logic is functions over datatypes, with lemmas for what the source promises.
Floating point is modelled on exact rationals. `Math.round` is round-half-up applied to the
exact quotient, `Math.ceil(n * 0.65)` is `(65n + 99) / 100`, and `NaN` appears where the
source divides by zero. A percentage computed as `(a / b) * 100` in doubles can fall just
below a half that the exact quotient reaches, so the model can round up where the program
rounds down; the members concerned are listed under "Left out".

Behaviour kept as the code has it, which a reader might expect otherwise:

- `goToQuestion` stores the index unclamped.
- `startExam` accepts an exam without questions.
- A tick before the exam has started still counts down.
- The daily limit is one attempt per exam per day, not a count of attempts.
- Each version grades in its own way (exact answer, exact set with partial class, fractional credit), and each is modelled as written.

## Model

| member | source | states |
|---|---|---|
| ExamStore.TickTime | testifyhq-new/src/stores/examStore.ts:80 | one tick removes a second and never goes below zero |
| ExamStore.Progress | testifyhq-new/src/stores/examStore.ts:89-94 | progress is 0 without questions, otherwise the rounded percentage of the current position |
| ExamStore.ProgressInRange | testifyhq-new/src/stores/examStore.ts:89-94 | for a valid position progress lies in 0..100 and is 100 on the last question; below 200 questions it is 100 only there |
| ExamStore.ProgressFullBeforeEnd | testifyhq-new/src/stores/examStore.ts:89-94 | example: with 200 questions the bar already shows 100 on question 199 (99.5 percent, rounded up) |
| ExamStore.AnsweredCountAfterSet | testifyhq-new/src/stores/examStore.ts:96-99 | answering adds one to the answered count exactly when the question had no answer yet |
| ExamStore.SetAnswerIdempotent | testifyhq-new/src/stores/examStore.ts:37-40 | setting an answer twice equals setting it once; other questions' answers are untouched |
| ExamStore.TicksFromValue | testifyhq-new/src/stores/examStore.ts:78-86 | k ticks from t seconds leave max(t - k, 0) |
| ExamStore.TicksNeverIncrease | testifyhq-new/src/stores/examStore.ts:78-86 | repeated ticks never add time and never go negative |
| ExamStore.ExamState.constructor | testifyhq-new/src/stores/examStore.ts:27-34 | the initial state: not started, not completed, no answers, position 0 |
| ExamStore.ExamState.SetAnswer | testifyhq-new/src/stores/examStore.ts:37-40 | only the given question's answer changes |
| ExamStore.ExamState.NextQuestion | testifyhq-new/src/stores/examStore.ts:42-45 | moves forward but never past the last question |
| ExamStore.ExamState.PreviousQuestion | testifyhq-new/src/stores/examStore.ts:47-50 | moves back but never below 0 |
| ExamStore.ExamState.GoToQuestion | testifyhq-new/src/stores/examStore.ts:52-53 | stores the index as given, with no clamping |
| ExamStore.ExamState.StartExam | testifyhq-new/src/stores/examStore.ts:55-63 | started, not completed, duration*60 seconds, position 0, no answers |
| ExamStore.ExamState.SubmitExam | testifyhq-new/src/stores/examStore.ts:65-66 | completed and not started; answers, position and time kept |
| ExamStore.ExamState.ResetExam | testifyhq-new/src/stores/examStore.ts:68-76 | restores exactly the initial state |
| ExamStore.ExamState.DecrementTime | testifyhq-new/src/stores/examStore.ts:78-86 | time goes down by one, not below 0; reaching 0 while started submits the exam |
| Timer.FormatTimeRoundTrip | testifyhq-new/src/hooks/useTimer.ts:20-24 | the MM:SS rendering is two padded digit groups that read back as the seconds |
| Timer.TimeBands | testifyhq-new/src/hooks/useTimer.ts:29-31 | low time is 60 < t < 300, critical is t <= 60, never both |
| Timer.RunInterval | testifyhq-new/src/hooks/useTimer.ts:7-17 | the interval ticks only while the exam is started and time is left, and stops at 0 |
| ResultsPage.CountCorrect | testifyhq-new/src/pages/ResultsPage.tsx:33-40 | the count lies between 0 and the number of questions; it is 0 iff none is correct and the number of questions iff all are |
| ResultsPage.CorrectCount | testifyhq-new/src/pages/ResultsPage.tsx:34-40 | the page's loop computes exactly that count |
| ResultsPage.PassThreshold | testifyhq-new/src/pages/ResultsPage.tsx:42-43 | for a non-empty exam the score is in 0..100 and passes exactly when at least 64.5 % of the questions are correct (65 after rounding half up) |
| ResultsPage.Evaluate | testifyhq-new/src/pages/ResultsPage.tsx:36-43 | the count never exceeds the questions; without questions the score is NaN and fails; otherwise it lies in 0..100, and a pass needs at least 64.5 % correct |
| ResultsPage.NoAnswersFail | testifyhq-new/src/pages/ResultsPage.tsx:36-43 | with no answers stored the score is 0 (NaN without questions) and the exam fails |
| ResultsPage.AllCorrectPasses | testifyhq-new/src/pages/ResultsPage.tsx:36-43 | all answers correct scores 100 and passes |
| ResultsPage.ThreeOfFour | testifyhq-new/src/pages/ResultsPage.tsx:42-43 | example: three correct of four scores 75 and passes |
| ResultsPage.BadgeCases | testifyhq-new/src/pages/ResultsPage.tsx:97-117 | each question gets exactly one of correct, skipped or incorrect, each under its own condition |
| ResultsPage.HighlightRules | testifyhq-new/src/pages/ResultsPage.tsx:124-135 | the correct option is green; an option is red only when selected on a wrong question |
| Selections.ExactMatchIsSetEquality | certifyme/resultado/resultado.js:44-46 | for distinct picks, the exact match holds iff the picks are the correct set |
| Selections.RepeatedSelectionMatches | certifyme/resultado/resultado.js:44-46 | a selection with a repeated correct option can pass the exact match |
| Selections.EmptySelection | certifyme/resultado/resultado.js:44-47 | an empty selection is never partial, and an exact match only for an empty key |
| Selections.ExactMatchSomeCorrect | certifyme/resultado/resultado.js:44-47 | a non-empty exact match contains a correct option |
| Selections.SetAt | certifyme/preguntas/preguntas.js:121 | writing an entry sets that index (growing the array) and keeps every other entry |
| Selections.AnswerStore.Save | certifyme/preguntas/preguntas.js:123 | the slug's saved array is replaced, reads back as the array just saved, and no other slug changes |
| Selections.AnswerStore.Remove | certifyme/resultado/resultado.js:88 | the slug reads back as unsaved and no other slug changes |
| ExactGrading.CountCorrect | certifyme/resultado/resultado.js:51-53 | the count is at most the number of marks; it equals it iff every mark is correct, and is 0 iff none is |
| ExactGrading.MarkAll | certifyme/resultado/resultado.js:33-74 | the loop computes the marks and the correct count of every question |
| ExactGrading.Percent | certifyme/resultado/resultado.js:81 | the percentage is count*100/n, NaN without questions |
| ExactGrading.MarkCases | certifyme/resultado/resultado.js:44-58 | correct, partial and wrong are exclusive and cover every question |
| ExactGrading.NotListIsEmptySelection | certifyme/resultado/resultado.js:37 | a non-array entry is marked like an empty selection |
| ExactGrading.ScalarKeyIsSingleton | certifyme/resultado/resultado.js:38-40 | a scalar key grades like the one-element array key |
| ExactGrading.NothingSavedScoresZero | certifyme/resultado/resultado.js:23-53 | with nothing saved the count is 0 whenever no key is an empty array |
| ExactGrading.PercentRange | certifyme/resultado/resultado.js:81 | the percentage lies in 0..100 and is 100 exactly when all are correct |
| ExactGrading.ResultadoPage.Display | certifyme/resultado/resultado.js:4-88 | without a slug or exam nothing is shown; otherwise the marks are shown and the saved answers removed |
| ExactGrading.ResultadoPage.Retry | certifyme/resultado/resultado.js:91-95 | retry removes the saved answers |
| ExactGrading.ResultadoPage.Back | certifyme/resultado/resultado.js:96-100 | back removes the saved answers |
| ExactGrading.LegacyResultadoPage.Display | certifyme/public/resultado/resultado.js:4-76 | the same marks are shown and the saved answers stay |
| ExactGrading.LegacyResultadoPage.Retry | certifyme/public/resultado/resultado.js:79-82 | retry removes the saved answers |
| ExactGrading.LegacyResultadoPage.Back | certifyme/public/resultado/resultado.js:83-85 | back leaves the saved answers in place |
| Feedback.FindReached | certifyme/resultado/resultado.js:82-83 | the first entry in list order whose threshold the percentage reaches, and none earlier |
| Feedback.HigherPercentEarlierEntry | certifyme/resultado/resultado.js:82-83 | a higher percentage never selects a later entry |
| Feedback.NaNShowsNothing | certifyme/resultado/resultado.js:81-84 | a NaN percentage shows no message |
| LegacyExam.Visible | js/examen.js:42-44 | the page shows the questions from page*2 up to two more, as far as they exist |
| LegacyExam.ButtonsFor | js/examen.js:70-72 | back is disabled on page 0; exactly one of next and finish is visible |
| LegacyExam.SaveOne | js/examen.js:87-106 | one block adds at most its own question's answer, never loses one, and leaves every other question's answer as it was |
| LegacyExam.SavePage | js/examen.js:84-107 | saving a page never loses an answer, and only questions on the page gain one |
| LegacyExam.SavePageKeepsOthers | js/examen.js:84-107 | questions not on the page keep their answer or absence of one |
| LegacyExam.SavePageBlock | js/examen.js:84-107 | each block's answer after saving is its single-block rule applied to the old answer |
| LegacyExam.SaveOneRules | js/examen.js:87-106 | a radio group with nothing checked keeps the old answer; checkboxes are replaced by the checked indices |
| LegacyExam.SavedAnswerIsChecked | js/examen.js:76-80 | a saved answer re-checks exactly the options that were checked |
| LegacyExam.ExamPage.constructor | js/examen.js:11-14 | the page starts on page 0 with no answers |
| LegacyExam.ExamPage.SaveRespuestas | js/examen.js:84-107 | the answers are the old ones with the page's blocks saved in order |
| LegacyExam.ExamPage.Next | js/examen.js:111-115 | saves the page, then one page forward |
| LegacyExam.ExamPage.Back | js/examen.js:117-121 | saves the page, then one page back |
| LegacyExam.ExamPage.Finish | js/examen.js:124-132 | saves the page and stores the answers with the original exam and the timestamp |
| PartialCredit.CountIn | js/resultados.js:26 | the filter count never exceeds the number of picks |
| PartialCredit.CountCorrectPicks | js/resultados.js:26 | the loop counts the picks that are in the correct list |
| PartialCredit.GradeOf | js/resultados.js:15-33 | a question is correct exactly on full credit; credit is never negative; it is NaN only for an empty key answered with an array |
| PartialCredit.Total | js/resultados.js:14-35 | the total is NaN exactly when some question's credit is, and otherwise never negative |
| PartialCredit.GradeQuestion | js/resultados.js:15-33 | the credit and the correct flag of one question |
| PartialCredit.Score | js/resultados.js:14-65 | the loop computes the total and every question's class |
| PartialCredit.ClasesAt | js/resultados.js:37-43 | the blocks come one per question, in exam order, each with its question's class |
| PartialCredit.Porcentaje | js/resultados.js:68 | the percentage rounded half up; NaN exactly when the total is not a number or there are no questions |
| PartialCredit.Summarise | js/resultados.js:68-77 | no percentage exactly when the total is NaN or there are no questions, and then no feedback; a pass needs a number total reaching a stated minimum; an empty exam totals 0 |
| PartialCredit.SingleAnswerCredit | js/resultados.js:30-33 | a single-answer question earns 1 iff the answer equals the key, else 0 |
| PartialCredit.MultiWithoutArray | js/resultados.js:23-29 | a multiple-answer question without an array answer earns 0 and is not correct |
| PartialCredit.WrongPicksIgnored | js/resultados.js:26 | picks outside the correct list do not change the count |
| PartialCredit.ExtraWrongPicksSameGrade | js/resultados.js:23-29 | adding wrong picks leaves credit and flag unchanged |
| PartialCredit.CountInIsIntersection | js/resultados.js:26 | for distinct picks the count is the size of the intersection with the key |
| PartialCredit.CountInBound | js/resultados.js:26 | for distinct picks the count never exceeds the number of correct options |
| PartialCredit.FullCreditIffAllPicked | js/resultados.js:23-29 | with distinct picks the question is correct iff every correct option is picked |
| PartialCredit.PartialMeansSomeNotAll | js/resultados.js:37-43 | the classes are exclusive; partial means some but not all correct options picked |
| PartialCredit.RepeatedPickOverCredits | js/resultados.js:26-28 | a repeated pick on a one-option key earns credit 2, and the question is classed partial, not correct |
| PartialCredit.CreditInUnit | js/resultados.js:14-33 | with distinct picks every credit is between 0 and 1 |
| PartialCredit.TotalBounds | js/resultados.js:35 | with distinct picks the total is between 0 and the number of questions |
| PartialCredit.PercentageBounds | js/resultados.js:68 | with distinct picks the percentage lies in 0..100 |
| PartialCredit.EmptyExam | js/resultados.js:68-76 | an exam without questions has total 0, a NaN percentage and no feedback, and passes only when the minimum is at most 0 |
| PartialCredit.PassIsOnRawTotal | js/resultados.js:69 | 129.5 and 130 of 200 both show 65 %, yet only 130 meets a minimum of 130: the pass is judged on the raw total |
| Pager.PageEnd | certifyme/preguntas/preguntas.js:82-83 | the window end never exceeds the total nor start + 2, and the window is non-empty while questions remain |
| Pager.SavedWindowRendersChecked | certifyme/preguntas/preguntas.js:97 | after saving, a visible option renders checked iff it was checked |
| Pager.ScoreOf | certifyme/preguntas/preguntas.js:144-162 | the score lies between 0 and the number of questions |
| Pager.ScoreMatchesResultsPage | certifyme/preguntas/preguntas.js:144-162 | the finish's score equals the results page's correct count when no key is an empty array |
| Pager.PointIffCorrect | certifyme/preguntas/preguntas.js:154-155 | a point is scored iff the results page marks the question correct |
| Pager.QuestionsPage.constructor | certifyme/preguntas/preguntas.js:46-65 | page 0, two hours, and the initial answers for the slug |
| Pager.QuestionsPage.WindowBounds | certifyme/preguntas/preguntas.js:82-83 | at most two questions are visible, never past the last |
| Pager.QuestionsPage.SaveAnswers | certifyme/preguntas/preguntas.js:113-124 | only the window's entries are overwritten with the checked options; the array is saved under the slug |
| Pager.QuestionsPage.Prev | certifyme/preguntas/preguntas.js:126-130 | saves, then one page back unless on page 0 |
| Pager.QuestionsPage.NextPublic | certifyme/public/preguntas/preguntas.js:119-129 | saves, then the results iff the end reached the total, otherwise one page forward |
| Pager.QuestionsPage.Score | certifyme/preguntas/preguntas.js:144-162 | the loop computes the exact-match score |
| Pager.QuestionsPage.GuestFinishAsWritten | certifyme/preguntas/preguntas.js:187-192 | a guest's finish removes the saved answers |
| Pager.QuestionsPage.GuestFinish | certifyme/preguntas/preguntas.js:175-177 | the saved answers stay for the results page |
| Pager.QuestionsPage.Next | certifyme/preguntas/preguntas.js:132-197 | as written: saves the window; forward while pages remain; on the last page the score goes to the profile with the answers kept, while a guest's saved answers are removed before the results open |
| Pager.QuestionsPage.NextIntended | certifyme/preguntas/preguntas.js:132-197 | the same button with the guest finish corrected: on every path the saved array is the one just written, so the results page can grade it |
| Pager.QuestionsPage.Tick | certifyme/preguntas/preguntas.js:67-68 | the countdown goes down by one and never below 0 |
| Pager.QuestionsPage.Restart | certifyme/preguntas/preguntas.js:54-61 | once confirmed, the saved answers are removed and the page starts over; otherwise nothing changes |
| Pager.GuestFinishLosesAnswers | certifyme/preguntas/preguntas.js:190 | a guest scoring 1 at the finish is shown 0 by the results page |
| Pager.GuestFinishKeepsScore | certifyme/preguntas/preguntas.js:175-177 | with the answers kept the results page shows the finish's score |
| SpaExam.DetailSlug | certifyme/src/main.js:179-181 | a path under `/exam/` opens the field up to the next `/`, which has no `/` |
| SpaExam.RouteAsWritten | certifyme/src/main.js:175-185 | as written: the list exactly for `/exams`; a detail view's slug has no `/`; never a results view and never the home page |
| SpaExam.DetailRoundTrip | certifyme/src/main.js:75 | an exam card's hash opens that exam |
| SpaExam.FixedRoutes | certifyme/src/main.js:175-184 | as written: the empty hash, `#` and `#/` reach the undefined `renderHome` and render nothing; `#/exams` is the list |
| SpaExam.FallbackNotRendered | certifyme/src/main.js:182-184 | every hash that is neither the list nor under `/exam/` renders nothing as written |
| SpaExam.FinishReopensExam | certifyme/src/main.js:163 | the finish hash routes back to the same exam's detail view |
| SpaExam.Route | certifyme/src/main.js:175-185 | the corrected router always renders a view, and any slug it opens has no `/` |
| SpaExam.RouteReachesResults | certifyme/src/main.js:163-185 | with the results route and a home page, the finish reaches the results, exam cards still open their exam, the empty hash is home, and the only changes are the results route and home in place of nothing |
| SpaExam.ExamDetailView.constructor | certifyme/src/main.js:100-104 | the saved array or the empty one, page 0, the counter at 0 and running |
| SpaExam.ExamDetailView.Tick | certifyme/src/main.js:106-111 | the counter goes up by one while running and is shown as MM:SS |
| SpaExam.ExamDetailView.Next | certifyme/src/main.js:149-168 | both slots of the page are written and saved; the counter stops at the last page, otherwise the page advances |
| SpaExam.LastPageWritesPastEnd | certifyme/src/main.js:150-158 | three questions leave an array of four entries |
| AccessGate.IsPremium | certifyme/src/subscription.js:9-22 | premium iff the read succeeded and the document has subscription type premium |
| AccessGate.Today | certifyme/src/subscription.js:85-88 | exactly the records dated from the start of the day, never more than the history |
| AccessGate.CheckDailyExamLimit | certifyme/src/subscription.js:71-107 | premium is allowed; a failed history read is an error denial; otherwise allowed iff not taken today |
| AccessGate.TodaysAttempts | certifyme/src/subscription.js:114-131 | the slugs of today's records, or none when the read fails |
| AccessGate.PremiumIgnoresHistory | certifyme/src/subscription.js:74-75 | for a premium user the history plays no part |
| AccessGate.FailedUserReadIsFree | certifyme/src/subscription.js:9-22 | a failed user read decides like a missing document; with an empty history it allows without a reason |
| AccessGate.OtherAttemptsDoNotCount | certifyme/src/subscription.js:93 | records of other exams or earlier days do not change the decision |
| AccessGate.AttemptTodayCloses | certifyme/src/subscription.js:93-97 | one attempt today closes the exam for a free user |
| AccessGate.DenialReasons | certifyme/src/subscription.js:71-107 | a denied user is never premium; the reason is error iff the history read failed and daily_limit iff it loaded |
| AccessGate.DeniedIffAttemptedToday | certifyme/src/subscription.js:93-99 | with the history loaded a free user is denied iff the exam was taken today |
| CanTakeExam.SameExamToday | certifyme/netlify/functions/can-take-exam.js:68-75 | exactly the records of that exam dated from the start of the day |
| CanTakeExam.Handle | certifyme/netlify/functions/can-take-exam.js:9-108 | every response is 200, 400, 404, 405 or 500; 200 exactly with the empty preflight answer or a verdict; an allowing verdict says premium or daily_limit_not_reached, a denying one daily_limit |
| CanTakeExam.MethodLadder | certifyme/netlify/functions/can-take-exam.js:12-26 | OPTIONS gives 200; the status is 405 exactly for a method that is neither OPTIONS nor POST |
| CanTakeExam.MissingParamsBeforeLookup | certifyme/netlify/functions/can-take-exam.js:31-37 | a missing user id or slug gives 400 whatever the database holds |
| CanTakeExam.DecisionLadder | certifyme/netlify/functions/can-take-exam.js:42-95 | unknown user 404, premium allowed, same exam today denied, otherwise allowed |
| CanTakeExam.VerdictOnlyOnSuccess | certifyme/netlify/functions/can-take-exam.js:97-107 | a verdict only comes with status 200; a 500 carries the internal error and happens exactly when a needed read fails or a POST body does not parse |
| CanTakeExam.AgreesWithClientGate | certifyme/netlify/functions/can-take-exam.js:50-95 | with every read successful the server allows exactly when the client gate does |
| CanTakeExam.UnknownUserDiffers | certifyme/netlify/functions/can-take-exam.js:42-48 | a user without a document is refused by the server but allowed by the client gate |
| Validation.BlankIffAllSpace | testifyhq-new/src/utils/validation.ts:14 | the required check fails iff every character is white space |
| Validation.MatchesEmailIffShape | testifyhq-new/src/utils/validation.ts:21 | the e-mail pattern's test holds iff the text has the pattern's shape |
| Validation.ValidateEmail | testifyhq-new/src/utils/validation.ts:13-33 | blank text gives the required message, any other failure the invalid message; valid iff the text has the pattern's shape, and iff no error |
| Validation.ValidatePassword | testifyhq-new/src/utils/validation.ts:39-68 | the required, length and letters-and-digits messages, each on its own failure; valid iff at least 6 UTF-16 code units with a letter and a digit |
| Validation.ValidatePasswordMatch | testifyhq-new/src/utils/validation.ts:73-88 | valid iff the two texts are identical, otherwise the mismatch message |
| Validation.ValidateOtp | testifyhq-new/src/utils/validation.ts:93-119 | the required, length (in UTF-16 code units) and digits-only messages, each on its own failure; valid iff exactly six digits |
| Validation.Indicators | testifyhq-new/src/utils/validation.ts:131-139 | seven indicators in the meter's order; the three length indicators are nested, and six characters always meet the first |
| Validation.LevelOf | testifyhq-new/src/utils/validation.ts:141-143 | weak up to 2, medium up to 5, strong above |
| Validation.PasswordStrength | testifyhq-new/src/utils/validation.ts:124-144 | the score is the number of indicators that hold (0..7), lengths counted in UTF-16 code units, with its level |
| Validation.StrengthNeverDropsWhenExtended | testifyhq-new/src/utils/validation.ts:130-139 | appending characters never lowers the score |
| Validation.AcceptedPasswordNotWeak | testifyhq-new/src/utils/validation.ts:47-61 | an accepted password scores at least 3 and is never weak |
| Validation.StrongestPassword | testifyhq-new/src/utils/validation.ts:128-143 | example: seven points and the strong level are reachable |
| Validation.AstralCharacterCountsTwice | testifyhq-new/src/utils/validation.ts:47 | example: `abc1` and one emoji is five characters but six code units, and is accepted |
| Payphone.ExtractUserId | testifyhq-new/supabase/functions/payphone-webhook/index.ts:184-206 | a user id exactly when the text starts with `TFY-` or `TESTIFYHQ-`, and then it is the field after the tag, free of `-` |
| Payphone.ExtractRoundTrip | testifyhq-new/supabase/functions/payphone-webhook/index.ts:186-199 | an id built in either format gives back its user id when that has no `-` |
| Payphone.OldFormatYieldsFirstGroup | testifyhq-new/supabase/functions/payphone-webhook/index.ts:196-199 | a full UUID in the old format yields only its first group |
| Payphone.UnknownFormat | testifyhq-new/supabase/functions/payphone-webhook/index.ts:201 | any other first field gives no user id |
| Payphone.NoSeparatorNoId | testifyhq-new/supabase/functions/payphone-webhook/index.ts:189-201 | an id without `-` gives no user id |
| Payphone.StatusOf | testifyhq-new/supabase/functions/payphone-webhook/index.ts:105-106 | 3 is approved, 2 rejected, anything else pending |
| Payphone.Resolve | testifyhq-new/supabase/functions/payphone-webhook/index.ts:80-102 | an 8-character id is resolved through the prefix lookup; other ids are used as they are |
| Payphone.TargetUser | testifyhq-new/supabase/functions/payphone-webhook/index.ts:66-101 | no user exactly when no id is extracted, it is empty, or an 8-character prefix finds nobody; any other id is used as extracted |
| Payphone.ResolvedUserHasPrefix | testifyhq-new/supabase/functions/payphone-webhook/index.ts:86-100 | a resolved prefix names an existing user whose id starts with it |
| Payphone.RowDefaults | testifyhq-new/supabase/functions/payphone-webhook/index.ts:115-116 | a missing amount is 899 and a missing currency USD |
| Payphone.Activate | testifyhq-new/supabase/functions/payphone-webhook/index.ts:139-146 | the user becomes premium without expiry and no other user changes |
| Payphone.Tables.Webhook | testifyhq-new/supabase/functions/payphone-webhook/index.ts:19-176 | OPTIONS answers 200; an unreadable body 500; a missing id 400; no user id 400; an unresolved user 404; a failed upsert 500; otherwise the payment row is recorded under its client id, and an approved payment also makes the user premium (500 if that update fails); no table changes on the error paths before the upsert |
| ExamMigration.DescriptionOf | testifyhq-new/src/utils/migrateExams.ts:22 | `descripcion`, else `description`, else `Sin descripción`; never empty |
| ExamMigration.DurationOf | testifyhq-new/src/utils/migrateExams.ts:39 | 120 minutes for an advanced title, else 60 |
| ExamMigration.PassingRaw | testifyhq-new/src/utils/migrateExams.ts:26 | the stated minimum when non-zero; otherwise the least count that reaches 65 % of the questions |
| ExamMigration.PassingPercent | testifyhq-new/src/utils/migrateExams.ts:26-27 | a number for a non-empty exam, in 0..100 when the minimum is within the exam; not a number for an empty exam |
| ExamMigration.DefaultPassMarkAtLeast65 | testifyhq-new/src/utils/migrateExams.ts:26-27 | without a stated minimum a non-empty exam's pass mark is at least 65 % |
| ExamMigration.StatedPassMarkInRange | testifyhq-new/src/utils/migrateExams.ts:26-27 | a stated minimum within the exam gives a pass mark in 0..100 |
| ExamMigration.EmptyExamPassMark | testifyhq-new/src/utils/migrateExams.ts:25-27 | an exam without questions gets NaN without a stated minimum and Infinity with one |
| ExamMigration.FortyQuestionExam | testifyhq-new/src/utils/migrateExams.ts:26-27 | example: 40 questions without a stated minimum need 26, i.e. 65 % |
| ExamMigration.LetterCode | testifyhq-new/src/utils/migrateExams.ts:65 | always a UTF-16 code unit; `a` + i for the first 26 positions |
| ExamMigration.LetterCodeInjective | testifyhq-new/src/utils/migrateExams.ts:72-73 | distinct positions get distinct letters |
| ExamMigration.OnlyFirstCorrectOption | testifyhq-new/src/utils/migrateExams.ts:61-65 | only the first correct option of an array survives |
| ExamMigration.StripPrefix | testifyhq-new/src/utils/migrateExams.ts:74 | the result is a suffix of the option, and an option without a leading `x)` label is unchanged |
| ExamMigration.StripLabel | testifyhq-new/src/utils/migrateExams.ts:74 | a lettered option of either case loses exactly its label |
| ExamMigration.OptionsOf | testifyhq-new/src/utils/migrateExams.ts:72-76 | one option per `opciones` entry, in order; each text is a suffix of its entry; the ids are distinct for up to 65536 options |
| ExamMigration.CorrectLetterNamesOption | testifyhq-new/src/utils/migrateExams.ts:60-76 | the correct letter is the id of the option at the correct index |
| ExamMigration.QuestionTextParts | testifyhq-new/src/utils/migrateExams.ts:81 | parts without spaces are recovered by splitting the joined text |
| ExamMigration.QuestionOrder | testifyhq-new/src/utils/migrateExams.ts:86 | the rows carry the exam's id and the order numbers 1 to n |
| ExamMigration.MigrateOne | testifyhq-new/src/utils/migrateExams.ts:16-101 | existing rows stay as a prefix; at most one exam row is added; a failure adds no question, a success adds one exam row and one question row per question |
| ExamMigration.MigrateAll | testifyhq-new/src/utils/migrateExams.ts:15-107 | every exam counts once, as a success or as an error |
| ExamMigration.MigrateOneEffect | testifyhq-new/src/utils/migrateExams.ts:31-101 | a success adds one exam row and its question rows after the existing ones |
| ExamMigration.MigrateAllKeepsRows | testifyhq-new/src/utils/migrateExams.ts:15-107 | rows already present stay in place |
| ExamMigration.Database.MigrateExams | testifyhq-new/src/utils/migrateExams.ts:10-107 | the loop leaves the tables and counts described by the migration function |
| FileMigration.Matches | testifyhq-new/src/utils/migrateExamsFromFiles.ts:42-46 | the positions of exactly the exams with the title |
| FileMigration.RemoveQuestions | testifyhq-new/src/utils/migrateExamsFromFiles.ts:82-85 | every question of the exam is removed and no other |
| FileMigration.Finish | testifyhq-new/src/utils/migrateExamsFromFiles.ts:124-169 | the file adds exactly one success or error and one detail line, and no duplicate |
| FileMigration.MigrateFile | testifyhq-new/src/utils/migrateExamsFromFiles.ts:23-175 | one file adds exactly one success or error; a duplicate and an extra detail line exactly when it updates an existing exam |
| FileMigration.MigrateFiles | testifyhq-new/src/utils/migrateExamsFromFiles.ts:20-176 | the successes and errors add up to the number of files |
| FileMigration.RunCounts | testifyhq-new/src/utils/migrateExamsFromFiles.ts:20-176 | successes and errors add up to the number of files, duplicates are at most the files, and there is one detail line per file plus one per update |
| FileMigration.UpdateReplacesQuestions | testifyhq-new/src/utils/migrateExamsFromFiles.ts:55-96 | an update keeps the exam in place with the new data, its questions become exactly the new rows, and other exams keep theirs |
| FileMigration.FailedDeleteKeepsOldQuestions | testifyhq-new/src/utils/migrateExamsFromFiles.ts:87-91 | a failed delete does not abort, and old questions stay beside the new |
| FileMigration.NewTitleAppends | testifyhq-new/src/utils/migrateExamsFromFiles.ts:97-122 | a new title adds one exam at the end whose questions refer to it |
| FileMigration.MigrateExamsFromFiles | testifyhq-new/src/utils/migrateExamsFromFiles.ts:10-179 | the loop leaves the tables and result described by the migration function |
| FileMigration.MigrateOneFile | testifyhq-new/src/utils/migrateExamsFromFiles.ts:23-175 | one file's body leaves the tables and result described by the file function |
| DonationPrompt.ParseInt | testifyhq-new/src/hooks/useDonationPrompt.ts:21 | never infinite; NaN iff no digits follow the optional sign; negative only after `-` |
| DonationPrompt.CountRoundTrip | testifyhq-new/src/hooks/useDonationPrompt.ts:18-29 | reading back the stored count gives the count, NaN included |
| DonationPrompt.ParseIntReadsLeadingDigits | testifyhq-new/src/hooks/useDonationPrompt.ts:21 | leading white space and trailing text are ignored |
| DonationPrompt.NonNumericIsNaN | testifyhq-new/src/hooks/useDonationPrompt.ts:21 | text starting with neither digit nor sign reads as NaN |
| DonationPrompt.PromptEverySecondExam | testifyhq-new/src/hooks/useDonationPrompt.ts:31-39 | from 0 the count is the number of exams and the prompt comes after every second one |
| DonationPrompt.CorruptCountNeverPrompts | testifyhq-new/src/hooks/useDonationPrompt.ts:31-39 | a count that is NaN stays NaN and never prompts |
| DonationPrompt.DonationPrompt.constructor | testifyhq-new/src/hooks/useDonationPrompt.ts:18-29 | the count read from storage, the prompt down, the count stored |
| DonationPrompt.DonationPrompt.IncrementExamCount | testifyhq-new/src/hooks/useDonationPrompt.ts:31-39 | one more exam; the prompt rises at a positive even count and is never lowered; the count stays stored |
| DonationPrompt.DonationPrompt.DismissPrompt | testifyhq-new/src/hooks/useDonationPrompt.ts:41-43 | the prompt goes down and nothing else changes |
| OtpInput.FilledConcat | testifyhq-new/src/components/auth/OTPInput.tsx:30-32 | joining filled boxes gives one digit per box, in box order |
| OtpInput.ConcatChars | testifyhq-new/src/components/auth/OTPInput.tsx:62-69 | splitting a code into boxes and joining them gives the code back |
| OtpInput.CompletedCodeIsValid | testifyhq-new/src/components/auth/OTPInput.tsx:30-32 | a completed six-box code passes the code validator |
| OtpInput.PastedCodeIsValid | testifyhq-new/src/components/auth/OTPInput.tsx:55-60 | an accepted six-digit paste passes the code validator |
| OtpInput.OtpInput.constructor | testifyhq-new/src/components/auth/OTPInput.tsx:10-11 | `length` empty boxes |
| OtpInput.OtpInput.HandleChange | testifyhq-new/src/components/auth/OTPInput.tsx:14-33 | other values change nothing; otherwise only that box changes, focus moves on, and completion fires iff all boxes are filled, with their digits |
| OtpInput.OtpInput.HandleKeyDown | testifyhq-new/src/components/auth/OTPInput.tsx:35-51 | backspace on an empty box after the first clears the previous one; otherwise it clears the box |
| OtpInput.OtpInput.HandlePaste | testifyhq-new/src/components/auth/OTPInput.tsx:53-70 | an all-digit paste of the right length fills the boxes and completes with that code; anything else changes nothing |
| QaLab.LoginMessage | certifyme/public/qa-lab/lab.js:43-55 | success iff the trimmed credentials are the practice ones |
| QaLab.LoginIgnoresPadding | certifyme/public/qa-lab/lab.js:45 | white space around the credentials does not change the outcome |
| QaLab.LoginSuccessNeedsEnabledButton | certifyme/public/qa-lab/lab.js:37-40 | a successful login is only possible with the button enabled |
| QaLab.RegisterErrors | certifyme/public/qa-lab/lab.js:84-96 | each error is listed iff its check fails (the name length in UTF-16 code units); none iff all checks pass |
| QaLab.Register | certifyme/public/qa-lab/lab.js:82-106 | saved iff no error, otherwise the errors joined by spaces |
| QaLab.EmptyRegistration | certifyme/public/qa-lab/lab.js:84-96 | example: an empty form lists all four errors |
| QaLab.Filtered | certifyme/public/qa-lab/lab.js:122-128 | exactly the rows matching search and status, each as often as in the table |
| QaLab.SortRows | certifyme/public/qa-lab/lab.js:129-134 | the rows end up ordered by the key and direction and are a permutation of the input |
| QaLab.Table.constructor | certifyme/public/qa-lab/lab.js:108-115 | the five practice rows, sorted by suite ascending |
| QaLab.Table.RenderRows | certifyme/public/qa-lab/lab.js:121-142 | the shown rows are the filtered rows, sorted, and the count is their number |
| QaLab.Table.ClickHeader | certifyme/public/qa-lab/lab.js:144-155 | the same key flips the direction, a new key resets to ascending, then a render |
| QaLab.ShownRowsAreTheMatches | certifyme/public/qa-lab/lab.js:122-128 | a row is shown iff it matches the search and the status filter |
| QaLab.FlipReverses | certifyme/public/qa-lab/lab.js:131-132 | an ascending order read backwards is a descending order |
| QaLab.NotDone | certifyme/public/qa-lab/lab.js:187 | exactly the todos not done, never more than the list |
| QaLab.NotDoneAppend | certifyme/public/qa-lab/lab.js:187 | the pending todos of two lists joined are theirs joined |
| QaLab.Toggled | certifyme/public/qa-lab/lab.js:207-211 | one todo out for every todo in, with its id and text; todos with the clicked id get the checkbox's state, all others are unchanged |
| QaLab.Without | certifyme/public/qa-lab/lab.js:212-215 | exactly the todos with another id |
| QaLab.WithoutAppend | certifyme/public/qa-lab/lab.js:212-215 | deleting keeps the order of the remaining todos: deleting from a joined list is deleting from each part, joined in the same order |
| QaLab.WithoutCounts | certifyme/public/qa-lab/lab.js:212-215 | each todo with another id stays as often as it was there, and none with the id stays |
| QaLab.CheckingLowersPending | certifyme/public/qa-lab/lab.js:207-211 | checking a pending todo with a unique id lowers the pending count by one |
| QaLab.TodoList.constructor | certifyme/public/qa-lab/lab.js:218-219 | the two initial todos, not done |
| QaLab.TodoList.PendingCount | certifyme/public/qa-lab/lab.js:187 | the pending count never exceeds the number of todos |
| QaLab.TodoList.AddTodo | certifyme/public/qa-lab/lab.js:190-194 | empty text is ignored, otherwise one todo not done is appended and the pending count rises by one |
| QaLab.TodoList.Submit | certifyme/public/qa-lab/lab.js:196-201 | blank input is ignored; otherwise the trimmed text is appended as a pending todo |
| QaLab.TodoList.Toggle | certifyme/public/qa-lab/lab.js:207-211 | the todos become the toggled list |
| QaLab.TodoList.Delete | certifyme/public/qa-lab/lab.js:212-215 | the list becomes `Without` of the old one: the todos with the id are removed and the rest keep their order and their counts (WithoutAppend, WithoutCounts) |

## Left out

- Rendering, the DOM, `alert`/`confirm` texts and page navigation other than the outcome value are not modelled; each page's result is returned or stored as a value.
- Fetching exam files, Firestore and Supabase reads and writes, and local storage are parameters or class fields; their failure is an explicit input.
- Clocks: "start of day" and the finish timestamp are parameters; ISO date strings are compared as integers standing for instants.
- `Math.round`, `Math.ceil` and division are modelled exactly on rationals; floating-point error on large or non-terminating values is not.
- ExamStore.Progress: rounds the exact quotient, while the program rounds the double `(i + 1) / n * 100`, which lands just below the half for some positions: position 23 of 40 shows 57 in the program and 58 in the model.
- ResultsPage.Evaluate: the score rounds the exact quotient, while the program rounds the double `(correct / n) * 100`: 23 correct of 40 scores 57 in the program and 58 in the model; ResultsPage.PassThreshold is stated for the exact quotient in the same way.
- ExamMigration.PassingPercent: the pass mark rounds the exact quotient, while both migrations round the double `(raw / n) * 100`: a minimum of 23 of 40 questions is stored as 57 by the program and 58 by the model.
- ExactGrading.Percent: the percentage is the exact `count * 100 / n`, compared unrounded with each `umbral`, while the page compares the double `(count / n) * 100`: 57 correct of 100 is 56.99999999999999 on the page, so a threshold of 57 is missed there and reached in the model.
- PartialCredit.Porcentaje: the percentage rounds the exact quotient, while the page rounds the double `(total / n) * 100`: a total of 23 of 40 shows 57 on the page and 58 in the model.
- Strings are sequences of code points. The length checks of the password, code and registration validators count UTF-16 code units (`JsText.Utf16Length`, a code point above U+FFFF counts twice), as JavaScript's `length` does. `toLowerCase` is modelled on ASCII letters only, and string `<` in the lab table compares code points rather than UTF-16 units.
- Payphone.Tables.Webhook: the signature check is a TODO in the source and is not modelled; the `ilike` prefix lookup treats `%` and `_` in the id literally.
- Payphone.Tables.Webhook: the upsert's conflict on `client_transaction_id` is modelled as replacing the row with that key.
- DonationPrompt.ParseInt: digit runs too long for a double are read exactly, not rounded; the `typeof window` check for server rendering is not modelled.
- DonationPrompt.DonationPrompt.IncrementExamCount: React's batching of state updates and stale closures are not modelled; each call sees the latest state.
- OtpInput.OtpInput.HandleChange: DOM focus is modelled as the index of the focused box only; the paste handler is attached to the first box only, which the model does not track.
- QaLab.SortRows and QaLab.Table.RenderRows: they state order and permutation but not stability of `Array.prototype.sort`.
- QaLab.TodoList.AddTodo: `crypto.randomUUID()` is the `id` parameter.
- The lab's session timer, asynchronous button, drag and drop, modal, toggle-disabled button, screenshot area, scroll helper, delayed widget, file-upload feedback and clear buttons (certifyme/public/qa-lab/lab.js:8-26, 57-61, 77-80, 160-164, 221-309) are presentation only.
- The lab's elapsed-seconds timer and HTML form submission on Enter are not modelled.
- Timer.RunInterval: the interval's one-second period is a step of the loop, not a time.
- LegacyExam.ExamPage.Finish: the `respuestasUsuario` object is a map from question number to answer; the serialisation is not modelled.
- PartialCredit.Score: the answer and correct-answer texts of each block (`respuestaTexto`, `correctaTexto`) are presentation and are not modelled.
- ExamMigration.MigrateAll: exam ids assigned by the database are modelled as row positions.
- The other pages and hooks of testifyhq (dashboard, exam list, attempts hooks, payment pages, admin page, the other webhooks) are not part of this model.

## Findings

| source | as written | input that shows it | evidently intended | confidence | as-written member | corrected member |
|---|---|---|---|---|---|---|
| certifyme/preguntas/preguntas.js:187-192 | a guest's finish removes `answers_<slug>` before opening the results page, which grades the saved array | one question with key 0, answered 0: the finish scores 1, the results page shows 0 | keep the answers for the results page, as the logged-in branch does (line 175) | not executed | Pager.QuestionsPage.Next, Pager.QuestionsPage.GuestFinishAsWritten, Pager.GuestFinishLosesAnswers | Pager.QuestionsPage.NextIntended, Pager.QuestionsPage.GuestFinish, Pager.GuestFinishKeepsScore |
| certifyme/src/main.js:163 | the finish sets `#/exam/<slug>/results`, which the router sends to the exam detail view again | slug `istqb` with the hash `#/exam/istqb/results` | a results route for the finished exam | not executed | SpaExam.RouteAsWritten, SpaExam.FinishReopensExam | SpaExam.Route, SpaExam.RouteReachesResults |
| certifyme/src/main.js:182-184 | every hash other than `/exams` and `/exam/…` calls `renderHome`, whose definition (lines 5-46) is commented out, so the landing route throws and renders nothing | the empty hash, `#` or `#/` on first load | render the home page | not executed | SpaExam.RouteAsWritten, SpaExam.FixedRoutes, SpaExam.FallbackNotRendered | SpaExam.Route, SpaExam.RouteReachesResults |
