# Online exam: a Dafny model of the client-side exam logic

The application is a single-page exam app with two sides. A student starts a
timed multiple-choice exam, answers one question at a time (options A-D),
reviews and edits answers, and submits. The answers are scored against the
administrator's key: a cut mark for each wrong answer plus a fixed penalty.
An administrator logs in with fixed credentials and edits the exam
configuration, which is kept in browser local storage. A question bank and
its editor form exist as hooks and components, and a notification widget
converts the server's base64url key and picks its button's label.

The model has one module per source file:

- `Types` mirrors `types.ts`. It holds `ExamConfig`, `Page` and `Question`, with
  `Stored<T>` for a local-storage item: missing or empty text, text that does
  not parse, or a decoded value.
- `Text` holds the number-to-string and `padStart` helpers that the mm:ss
  clock and the save error message need.
- `ResultScreen` is the scoring loop (a method proved equal to a counting
  function), the score formula, and the per-question list.
- `ExamScreen` holds `formatTime`.
- `ReviewScreen` holds the Edit rows and the displayed-answer fallback.
- `AdminLogin` holds the credential check and its fixed error message.
- `AdminDashboard` holds the answer-key sanitiser, the field edits and the
  save validation.
- `ExamConfigStore` is `useExamConfig.ts`. It has the load-and-merge rule and a
  `ConfigHook` class whose fields are the configuration and the storage map.
- `QuestionBank` is `useQuestionBank.ts`. It has the list operations and a
  `BankHook` class that persists every change.
- `QuestionForm` holds the editor form, as functions plus an `Editor` class.
- `NotificationManager` holds the key conversion, with its byte-copy loop
  over an array, and the button decision table.
- `App` is the session. `AppState` is a snapshot of everything the handlers
  change, and `Step` says what each user action or timer callback does to it.
  `Consistent` is the invariant every enabled step keeps, so every reachable
  state satisfies it. `ExamSession` holds the same state in fields, and each of
  its handler methods is proved to produce `Step` of the old state.

The ADMIN_ID, ADMIN_PASS, DEFAULT_EXAM_CONFIG and DEFAULT_QUESTION_BANK
constants come from a constants file that is not part of this model. They are
parameters: `App.Credentials`, the `defaults` of the configuration hook, and the
`defaultBank` of the question-bank hook. The clock reading used for new
question ids (`new Date().getTime()`) is a parameter too. So are
`window.atob` and `Notification.permission`.

## Model

| member | source | states |
|---|---|---|
| ResultScreen.CountAnswers | ResultScreen.tsx:15-25 | the counting loop over indices 0..totalQuestions-1 returns the number of correct and of wrong indices, as `CountOutcome` defines them |
| ResultScreen.Score | ResultScreen.tsx:14-38 | the results of the computation: correct + wrong never exceed the number of questions, and the final score is totalMarks - fixedPenalty - wrong × (1 + cutMarkPerWrongAnswer); the counting lemmas below pin down correct and wrong |
| ResultScreen.ShownAnswer | ResultScreen.tsx:86-87 | the shown answer is never empty: the recorded answer, or 'N/A' |
| ResultScreen.MarkedCorrect | ResultScreen.tsx:88-89 | a row is marked correct only when it has a non-empty answer equal to the key's character; `MarkedCorrectMatchesCount` gives the converse |
| ResultScreen.ComputeResults | ResultScreen.tsx:14-38 | the results computation returns exactly `Score`: correct and wrong counts, cut mark, fixed penalty, final score, and totalQuestions minus the number of answer keys |
| ResultScreen.CountIsCardinality | ResultScreen.tsx:19-25 | `correct` (`wrong`) is the number of indices in [0, totalQuestions) whose answer is non-empty and equal to (different from) the key's character there |
| ResultScreen.CountsPartition | ResultScreen.tsx:19-25 | correct, wrong and unanswered indices together number max(totalQuestions, 0) |
| ResultScreen.CorrectPlusWrongBounded | ResultScreen.tsx:19-25 | correct + wrong never exceeds the number of questions |
| ResultScreen.ScoreIgnoresOutOfRangeKeys | ResultScreen.tsx:19-25 | dropping the answer keys outside [0, totalQuestions) leaves correct, wrong, cut mark and final score unchanged |
| ResultScreen.CountsAgree | ResultScreen.tsx:19-25 | two answer maps that classify every index alike give the same counts: the counts depend only on the per-index outcome |
| ResultScreen.UniformOutcome | ResultScreen.tsx:19-25 | when every index has the same outcome, that count is the number of questions and the others are zero |
| ResultScreen.EmptyAnswersScore | ResultScreen.tsx:17-36 | no answers: 0 correct, 0 wrong, cut mark 0, final score totalMarks - fixedPenalty, notAnswered = totalQuestions |
| ResultScreen.PerfectAnswersScore | ResultScreen.tsx:17-36 | answering every question with the key's character gives all correct, 0 wrong, 0 unanswered, final score totalMarks - fixedPenalty |
| ResultScreen.WrongAnswerCost | ResultScreen.tsx:27-28 | one more wrong answer lowers the final score by exactly 1 + cutMarkPerWrongAnswer |
| ResultScreen.FinalScoreAntitone | ResultScreen.tsx:27-28 | with a non-negative cut mark, more wrong answers never give a higher final score |
| ResultScreen.AccountedWhenInRange | ResultScreen.tsx:17-36 | when every key is a question index with a non-empty answer, correct + wrong + notAnswered = totalQuestions and notAnswered counts the unanswered indices |
| ResultScreen.MarkedCorrectMatchesCount | ResultScreen.tsx:86-89 | a row is marked correct (shown answer, with 'N/A' for none, equals the key's character) exactly when the loop counts it correct, so the marked rows number `correct` |
| ResultScreen.FourQuestionExample | ResultScreen.tsx:14-38 | key "ABCD" with answers A, X, C and one missing, 100 marks, cut 0.5, penalty 2: 2 correct, 1 wrong, cut 0.5, score 96.5, 1 unanswered |
| ResultScreen.NoQuestionExamReportsNegativeNotAnswered | ResultScreen.tsx:36 | as written: an exam with 0 questions and one stored answer reports -1 unanswered |
| ResultScreen.NotAnsweredByIndex | ResultScreen.tsx:36 | the unanswered count by index is at most the number of questions and completes correct + wrong to it |
| ResultScreen.NotAnsweredByIndexAgrees | ResultScreen.tsx:17-36 | when every key is an in-range index with a non-empty answer, the source's count and the by-index count agree |
| ResultScreen.ScoreByIndex | ResultScreen.tsx:14-38 | the corrected results: the same counts and scores, and a never-negative unanswered count that sums with correct and wrong to the number of questions |
| App.Initial | App.tsx:13-20 | the first state is the home page, not admin, no answers, question 0, timeLeft = time × 60, and it is consistent |
| App.Rendered | App.tsx:80-85 | the dashboard is shown exactly when the page is the dashboard and the admin flag is set; otherwise that page shows the login form |
| App.RenderedIsPage | App.tsx:80-85 | in every consistent state the rendered screen is the page itself |
| App.Step | App.tsx:22-85 | every handler of the session and the screens' callbacks: only Save changes the stored configuration, only Login and Logout change the admin flag, only StartExam, Tick, Answer, GoHome, LeaveLogin and Logout change the answers, and only Login and the dashboard edits change the form; the lemmas below give each handler's effect |
| App.StepPreservesConsistent | App.tsx:22-49 | every enabled action keeps the session invariant: admin flag exactly on the dashboard, no selection off the exam page, empty session on home and admin pages, a full timer on the home page, one-letter answers, and the index and answer keys within the questions when there is at least one question (with totalQuestions <= 0 the invariant still admits index 0 and key 0, the case of the finding below) |
| App.RunPreservesConsistent | App.tsx:22-49 | any sequence of enabled actions from a consistent state ends in a consistent state |
| App.ReachableIsConsistent | App.tsx:13-49 | every state reachable from the first render is consistent |
| App.StartExamFresh | App.tsx:44-49 | starting gives the exam page, no answers, question 0, a full timer and no selection, whatever came before; starting twice equals starting once |
| App.TickOffExam | App.tsx:23-30 | on the home page a tick only resets timer, answers and index; on result and admin pages it changes nothing |
| App.TickOnExam | App.tsx:30-39 | on exam or review a tick takes exactly one second off while time is left and changes nothing else; at zero it opens the result page whatever was answered |
| App.TickKeepsTimeNonNegative | App.tsx:32-39 | a timer that starts at or above zero stays there |
| App.AnswerOnce | ExamScreen.tsx:25-30 | with a selection already made, answering changes nothing; otherwise it records the option at the current index only, selects it (so a second answer changes nothing), and keeps the page and the index |
| App.AdvanceStaysInRange | ExamScreen.tsx:32-38 | after the feedback delay the index grows by one when it is below the last question, otherwise the review page opens; the index stays within the questions |
| App.EditThenAnswerOverwrites | ReviewScreen.tsx:14-17 | editing question i from review and answering it sets exactly answer i, on the exam page at index i |
| App.ReviewKeepsAnswers | ReviewScreen.tsx:14-54 | the exam's Review button, Edit, Submit and Back change no answer; Review, Submit and Back keep the index |
| AdminLogin.CredentialsMatch | AdminLogin.tsx:19 | exact equality of both identifier and password with the admin constants; `App.LoginOutcome` states its effect on the session |
| App.LoginOutcome | AdminLogin.tsx:17-26 | login sets the admin flag exactly on matching credentials, then opens the dashboard with a cleared error and a copy of the configuration; a failure keeps page and flag and shows the fixed message |
| App.SaveOutcome | AdminDashboard.tsx:32-42 | a mismatched key length keeps the configuration and sets an error message; a matching one replaces the configuration by the form and sets the success message |
| App.FormEditsTouchOnlyForm | AdminDashboard.tsx:17-30 | a field edit or the toggle changes only the form data; the toggle only its isActive |
| App.LogoutLeavesAdmin | AdminDashboard.tsx:44 | logout ends on the home page without the admin flag, with a fresh session under the current configuration |
| App.ResultAccountsForEveryQuestion | ResultScreen.tsx:17-36 | in a consistent state with at least one question, correct + wrong + notAnswered equals the number of questions |
| App.EmptyExamReachesNegativeNotAnswered | App.tsx:44-49 | an exam of 0 questions passes the save check, and start, answer, advance and submit reach the result page with -1 unanswered as written and 0 by index |
| App.ExamSession.constructor | useExamConfig.ts:8-34 | mounting loads the configuration, initialises its storage and starts in `Initial` |
| App.ExamSession.ResetExam | App.tsx:23-27 | the shared reset: timer time × 60, no answers, question 0 |
| App.ExamSession.StartExam | App.tsx:44-49 | from the home page of an active exam, the new state is `Step(StartExam)` and stays consistent |
| App.ExamSession.Tick | App.tsx:22-42 | one run of the timer effect is `Step(Tick)` |
| App.ExamSession.Answer | ExamScreen.tsx:25-30 | the synchronous part of the answer handler is `Step(Answer)` |
| App.ExamSession.AdvanceAfterFeedback | ExamScreen.tsx:32-38 | the delayed callback is `Step(Advance)` |
| App.ExamSession.AnswerAndAdvance | ExamScreen.tsx:25-39 | a click with nothing selected answers and advances; a click with a selection changes nothing |
| App.ExamSession.OpenReview | ExamScreen.tsx:55 | the header Review button is `Step(OpenReview)` |
| App.ExamSession.EditAnswer | ReviewScreen.tsx:14-17 | Edit on a listed question is `Step(EditAnswer)` |
| App.ExamSession.SubmitExam | ReviewScreen.tsx:19-21 | Submit is `Step(SubmitExam)` |
| App.ExamSession.BackToLastQuestion | ReviewScreen.tsx:53-58 | Back is `Step(BackToLastQuestion)` |
| App.ExamSession.GoHome | ResultScreen.tsx:105-111 | the home button of the result page is `Step(GoHome)` |
| App.ExamSession.OpenAdminLogin | StudentHome.tsx:51-57 | the admin link is `Step(OpenAdminLogin)` |
| App.ExamSession.Login | AdminLogin.tsx:17-26 | the login handler is `Step(Login)` |
| App.ExamSession.LeaveLogin | AdminLogin.tsx:64 | the back button is `Step(LeaveLogin)` |
| App.ExamSession.ChangeField | AdminDashboard.tsx:17-26 | a field edit is `Step(ChangeField)` |
| App.ExamSession.Toggle | AdminDashboard.tsx:28-30 | the toggle is `Step(Toggle)` |
| App.ExamSession.Save | AdminDashboard.tsx:32-42 | save is `Step(Save)`; on success the storage holds the form and the next load returns it; on failure the storage is untouched |
| App.ExamSession.Logout | AdminDashboard.tsx:44 | logout is `Step(Logout)` |
| ExamScreen.JsRemainder | ExamScreen.tsx:43 | for a non-negative dividend the remainder lies in [0, 60) and rebuilds the dividend with the floored quotient |
| ExamScreen.FormatTime | ExamScreen.tsx:41-45 | the clock is never shorter than "mm:ss"; its shape and round trip are the next three rows |
| ExamScreen.FormatTimeShape | ExamScreen.tsx:41-45 | for 0 <= s < 6000 the clock is two minute digits, ':', two second digits, with secs < 60 and minutes × 60 + secs = s |
| ExamScreen.FormatTimeRoundTrip | ExamScreen.tsx:41-45 | for 0 <= s < 6000 the clock has 5 characters and reads back as s |
| ExamScreen.FormatTimeLongExam | ExamScreen.tsx:41-45 | from 100 minutes on, the minutes are not cut to two digits and the clock is longer than 5 characters |
| Text.Decimal | ExamScreen.tsx:44 | the decimal rendering is non-empty, all digits, one digit exactly below 10, and has no leading zero |
| Text.DecimalRoundTrip | ExamScreen.tsx:44 | reading the decimal rendering back gives the number |
| Text.PadStart | ExamScreen.tsx:44 | padding gives length max(width, length), ends with the input, and every character before it is the fill |
| Text.TwoDigits | ExamScreen.tsx:44 | a number below 100 padded to 2 is its tens digit then its units digit |
| ReviewScreen.EditTargets | ReviewScreen.tsx:31-40 | the rows, each with an Edit button, are the indices 0..totalQuestions-1, and none for a non-positive count |
| ReviewScreen.AnswerLabel | ReviewScreen.tsx:32 | the label is never empty: the recorded answer, or '---' |
| ReviewScreen.AnswerLabelShowsRecorded | ReviewScreen.tsx:32 | with one-letter answers, the row shows the stored answer when there is one and '---' exactly when there is none |
| AdminDashboard.SanitizeAnswers | AdminDashboard.tsx:22 | the sanitised key holds only A-D and is no longer than the input |
| AdminDashboard.SanitizeConcat | AdminDashboard.tsx:22 | sanitising is character by character: it distributes over concatenation, so the kept characters keep their order |
| AdminDashboard.SanitizeChar | AdminDashboard.tsx:22 | one character: a-d become A-D, A-D stay, everything else is dropped |
| AdminDashboard.SanitizeFixedPoints | AdminDashboard.tsx:22 | a key is unchanged by sanitising exactly when it holds only A-D |
| AdminDashboard.SanitizeIdempotent | AdminDashboard.tsx:22 | sanitising twice is sanitising once |
| AdminDashboard.ApplyEdit | AdminDashboard.tsx:17-26 | `{...prev, [name]: value}`: the named field takes the new value (the sanitised text for the correct answers), the other six fields and isActive keep theirs, and a sanitised key stays sanitised |
| AdminDashboard.MismatchIsError | AdminDashboard.tsx:34 | the mismatch message starts with "Error", and so is shown as an error |
| AdminDashboard.MismatchMessageNamesCounts | AdminDashboard.tsx:34 | the error message contains both the key length and the question count |
| AdminDashboard.CheckSave | AdminDashboard.tsx:32-42 | the form is accepted exactly when the key length equals totalQuestions; the message is an error exactly on rejection and names the key length |
| AdminDashboard.ShortKeyRejected | AdminDashboard.tsx:33-36 | a 3-letter key for 5 questions is rejected with a message containing "3" and "5" |
| ExamConfigStore.LoadConfig | useExamConfig.ts:8-18 | a missing or empty item, or one that does not parse, loads exactly the defaults; a decoded record, whole or partial, is merged over the defaults field by field |
| ExamConfigStore.Merge | useExamConfig.ts:11-13 | `{...DEFAULT_EXAM_CONFIG, ...savedConfig}`: every field present in the saved record wins, every absent field comes from the defaults |
| ExamConfigStore.MergeNothing | useExamConfig.ts:11-13 | merging an empty saved record gives the defaults |
| ExamConfigStore.MergeEverything | useExamConfig.ts:13 | a saved record with every field overrides every default |
| ExamConfigStore.StoreThenLoad | useExamConfig.ts:8-23 | what set-and-store writes is what the next load returns |
| ExamConfigStore.InitializedStorage | useExamConfig.ts:30-34 | after initialisation the item is present; an existing item and every other key are untouched |
| ExamConfigStore.InitializeKeepsLoad | useExamConfig.ts:30-34 | initialising never changes what a load returns |
| ExamConfigStore.ConfigHook.constructor | useExamConfig.ts:8-18 | the hook starts with the loaded configuration |
| ExamConfigStore.ConfigHook.SetAndStore | useExamConfig.ts:20-27 | memory and storage both take the new configuration, and the next load returns it |
| ExamConfigStore.ConfigHook.InitializeStorage | useExamConfig.ts:30-34 | the defaults are written only when the item is missing or empty |
| QuestionBank.GeneratedId | useQuestionBank.ts:40 | a new id is 'q' followed by at least one character |
| QuestionBank.LoadBank | useQuestionBank.ts:14-22 | the stored list when one decodes, the default bank otherwise |
| QuestionBank.Replaced | useQuestionBank.ts:46-48 | the length is kept, and every question with the updated id is replaced while every other is kept |
| QuestionBank.Removed | useQuestionBank.ts:50-52 | no kept question has the id, and every other question keeps its multiplicity |
| QuestionBank.RemovedConcat | useQuestionBank.ts:50-52 | filtering distributes over concatenation, so the kept questions keep their order |
| QuestionBank.ReplacedAbsentId | useQuestionBank.ts:46-48 | updating with an id no question has leaves the list unchanged |
| QuestionBank.RemovedAbsentId | useQuestionBank.ts:50-52 | deleting an id no question has leaves the list unchanged |
| QuestionBank.ReplaceThenRemove | useQuestionBank.ts:46-52 | updating and then deleting an id is deleting it |
| QuestionBank.InitializedStorage | useQuestionBank.ts:32-36 | a missing or empty item becomes the default bank, an existing item is untouched, and no other key changes |
| QuestionBank.StoreThenLoadBank | useQuestionBank.ts:14-30 | the list the persist effect writes is the list the next load returns |
| QuestionBank.InitializeKeepsLoadBank | useQuestionBank.ts:14-36 | initialising never changes what a later load returns |
| QuestionBank.InitializeAfterPersistIsNoOp | useQuestionBank.ts:24-36 | the persist effect runs first at mount, so initialisation then writes nothing |
| QuestionBank.BankHook.constructor | useQuestionBank.ts:14-30 | mounting loads the list and persists it |
| QuestionBank.BankHook.InitializeStorage | useQuestionBank.ts:32-36 | the list is kept, and after mounting the storage is untouched |
| QuestionBank.BankHook.AddQuestion | useQuestionBank.ts:38-44 | exactly one question with the generated id and the given fields is appended; storage holds the new list |
| QuestionBank.BankHook.UpdateQuestion | useQuestionBank.ts:46-48 | the list becomes `Replaced`; storage holds the new list |
| QuestionBank.BankHook.DeleteQuestion | useQuestionBank.ts:50-52 | the list becomes `Removed`; storage holds the new list |
| QuestionForm.FormFor | QuestionForm.tsx:11-30 | no question gives the default form; a question gives its prompt, options and correct answer |
| QuestionForm.WithOption | QuestionForm.tsx:37-43 | only the named option takes the new text |
| QuestionForm.Complete | QuestionForm.tsx:51 | the submit guard: a non-empty prompt and four non-empty options; `SubmitOutcome` states that nothing is saved exactly when it fails |
| QuestionForm.SubmitOutcome | QuestionForm.tsx:49-58 | nothing is saved exactly when the prompt or an option is empty; an edit saves the question with its id and the form's fields; an addition saves the bare form data |
| QuestionForm.UnchangedEditResubmits | QuestionForm.tsx:20-58 | loading a complete question and submitting it unchanged saves that same question |
| QuestionForm.Editor.constructor | QuestionForm.tsx:18-30 | the form starts as `FormFor(question)` |
| QuestionForm.Editor.Load | QuestionForm.tsx:20-30 | the effect sets the form to `FormFor(question)` |
| QuestionForm.Editor.ChangePrompt | QuestionForm.tsx:32-35 | only the prompt changes |
| QuestionForm.Editor.ChangeOption | QuestionForm.tsx:37-43 | only the named option changes; prompt and correct answer are kept |
| QuestionForm.Editor.SelectCorrect | QuestionForm.tsx:45-47 | only the correct answer changes |
| QuestionForm.Editor.Submit | QuestionForm.tsx:49-58 | the submission is `SubmitOutcome` of the current form |
| NotificationManager.PaddingLength | NotificationManager.tsx:7 | the padding is at most 3 and makes the length a multiple of 4 |
| NotificationManager.ReplaceAll | NotificationManager.tsx:9-10 | the length is kept, and exactly the matching characters are replaced |
| NotificationManager.ToStandardBase64 | NotificationManager.tsx:7-10 | the result is a multiple of 4 long; '-' becomes '+', '_' becomes '/', the other characters are kept, and the tail is '=' padding |
| NotificationManager.StandardBase64RoundTrip | NotificationManager.tsx:7-10 | for a url-safe key, translating back and dropping the padding recovers the key (RFC 4648 section 5 to section 4 and back) |
| NotificationManager.CharCodesToBytes | NotificationManager.tsx:13-17 | a fresh array of the decoded length whose element i is character code i modulo 256 |
| NotificationManager.UrlBase64ToBytes | NotificationManager.tsx:6-19 | fails exactly when the decoder fails; otherwise the bytes of the decoded converted key |
| NotificationManager.GetButtonContent | NotificationManager.tsx:81-92 | the button is disabled exactly when permission is denied or already subscribed; denied always shows the blocked label; the active-updates label shows exactly when not denied and subscribed; granted and not subscribed shows the subscribe-failed label, default and not subscribed the get-updates label |
| Types.LetterText | types.ts:29 | an option letter is one character between 'A' and 'D' |

## Left out

- Rendering, styling, GlitchText, the progress bar percentage and the per-option button colours on the exam screen are presentation only.
- `toFixed(2)`: cut mark, penalty and final score are exact `real` values, not two-decimal strings.
- Timers. `setInterval` is one `Tick` step. The 800 ms answer delay is the `Advance` event, which `AnswerAndAdvance` takes as immediate. The 3 s and 4 s timeouts that clear the save message are not modelled.
- A pending answer callback that fires after the exam page was left (by the timer or the Review button) is not modelled: in the model, leaving the page drops the callback.
- App.ExamSession.Tick: the timer effect runs after a render, so in the application a tick on the home page only happens once the page has changed. The model performs that reset at once whenever the home page is entered, and a home-page tick then changes nothing.
- `JSON.parse`, `JSON.stringify` and `localStorage` are an abstract map from keys to `Stored` values. A write that throws (quota exceeded) is not modelled, and neither is a stored bank value that parses to something other than a list of questions. A stored configuration that parses to something other than an object, or to fields of the wrong type, is abstracted the same way: `SavedConfig` holds only well-typed optional fields.
- AdminDashboard.ApplyEdit: `Number(value)` parsing of the numeric fields is not modelled: an edit carries an already parsed number, an integer for the time and the question count, and `NaN` from non-numeric text has no counterpart (fractional minutes: see the ExamConfig.time line below). A fractional question count can never equal the key's length, so save rejects it in the source as in the model. `toUpperCase` is modelled for ASCII only: a non-ASCII character whose upper-case form contains A-D (U+1E9A becomes "A" followed by U+02BE, so the source keeps "A") is dropped by the model. The textarea's `maxLength` limit is a browser input constraint and is not modelled.
- ExamConfig.time, FieldEdit.Time, ExamScreen.FormatTime: minutes and seconds are whole numbers in the model. In the application `Number(value)` accepts fractional minutes and save does not check them, so a time of 0.01 minutes starts the timer at 0.6 seconds and `formatTime` renders "00:0.6"; the model cannot represent such a configuration.
- `window.atob` is a parameter of `UrlBase64ToBytes`; its decoding is not modelled.
- The asynchronous push-subscription flow, the permission request, the notification the result screen posts, and the service worker (`sw.ts`) are browser I/O.
- The question-bank administration screen that would call the bank hook and the form is not part of this model; the hook and the form are modelled on their own.

## Findings

| source | as written | input that shows it | evidently intended | confidence | as-written member | corrected member |
|---|---|---|---|---|---|---|
| ResultScreen.tsx:36 | `notAnswered` is totalQuestions minus the number of keys in the answer map | save an exam with totalQuestions 0 and an empty key (the length check passes), start it, answer the one question shown (index 0), submit: notAnswered = -1 | the number of questions in [0, totalQuestions) without an answer, never negative | medium, not executed | ResultScreen.NoQuestionExamReportsNegativeNotAnswered | ResultScreen.ScoreByIndex |
