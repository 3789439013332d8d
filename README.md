# MedSkool core, modelled in Dafny

MedSkool is a study application for medical students. A dashboard groups 76
lessons under nine specialties and shows progress per theme. Each lesson page
has a PDF viewer, a chat with a teaching assistant, a quiz driven by a
language model, and a simulated clinical case. In that case the student
questions a "patient" and submits a diagnosis for evaluation. PDFs can be
uploaded for a lesson.

This project models the sequential logic under that interface:

- the quiz-reply parser (`quizService.ts`);
- the diagnosis evaluator and reply clean-up (`aiService.ts`);
- the lesson store (`store.ts`) and the values the dashboard derives from it (`Dashboard.tsx`);
- the client-side upload checks (`uploadService.ts`);
- the small state machines of the quiz panel, the quiz session, the two chat logs and the application shell.

Each module follows one source file:

| file | module | models |
|---|---|---|
| `text.dfy` | `Wrappers`, `Text` | `Option`, the outcome of one model call (`Reply`), and the JavaScript string operations the sources use: `trim`, `split`/`join`, `includes`, `startsWith`, `toLowerCase`, `replace(/\D/g, '')`, template-literal numbers |
| `quiz_service.dfy` | `QuizService` | `generateQuizQuestion`: the parse loop as a method over a sequence of lines, the validation, the in-place marking of the correct choice, the fallback question |
| `ai_service.dfy` | `AiService` | `evaluateDiagnosis` (unsure list, `VERDICT:` and `EXPLICATION:` extraction, fallbacks), the reply clean-up of `getMedicalProfessorResponse` and `evaluateProgress`, and the fixed answers of every service on failure |
| `store.dfy` | `Store` | the theme mapping as an object literal, `initialLessons`, and the store as a class whose `lessons` field `updateProgress`/`resetProgress` replace |
| `dashboard.dfy` | `Dashboard` | `getThemeProgress`, `displayedLessons`, the theme grid and its nine cards, the status markers, and the lesson menu as a class |
| `upload_service.dfy` | `UploadService` | `uploadPDF`: validation order, the sanitised lesson id, the classification of server answers |
| `quiz_question.dfy` | `QuizQuestion` | the question panel (`selectedAnswer`, `showExplanation`, `handleNext`, `isAnswerCorrect`) as a class |
| `pdf_viewer.dfy` | `PdfViewer` | the quiz session counter and the case-generation guard of `PDFViewer` as a class over transition functions |
| `medical_case.dfy` | `MedicalCase` | the consultation log, the send and diagnosis handlers as a class |
| `lesson_view.dfy` | `LessonView` | the lesson lookup, the assistant chat as a class, the paragraph split of messages |
| `app.dfy` | `App` | the routes, the back button of the navigation bar, `selectedTheme`/`viewMode` as a class |

Calls to the language model are parameters of type `Reply`: either
`Replied(text)` or `Failed` (the call threw). An asynchronous handler
with a loading flag becomes two methods. A `Begin…` method runs up to the
`await`, and a `Finish…` method receives the call's outcome. This is how
the re-entrancy guard ("ignored while a call is in flight") is stated.

## Model

| member | source | states |
|---|---|---|
| Text.TrimSpec | src/services/quizService.ts:45 | `trim` removes exactly the leading and trailing ECMAScript white space; the result is empty exactly when the input is all white space |
| Text.SplitOn | src/services/quizService.ts:37 | `split` always yields at least one piece |
| Text.JoinSplit | src/pages/LessonView.tsx:67 | joining the pieces of a split with the separator gives the text back |
| Text.SplitJoin | src/services/aiService.ts:29-31 | splitting a join gives back the parts when no part holds the separator's first character |
| Text.ContainsIff | src/services/uploadService.ts:19 | `includes` holds exactly when the pattern occurs at some position |
| Text.DigitsOnly | src/services/uploadService.ts:30 | the result holds only digits, a character is in it exactly when it is a digit of the input, and it is never longer |
| Text.DigitsOnlyEach | src/services/uploadService.ts:30 | each character is dropped when it is not a digit and kept in its place when it is |
| Text.DigitsOnlyOfDigits | src/services/uploadService.ts:30 | a string of digits is left unchanged |
| Text.DigitsOnlyAppend | src/services/uploadService.ts:30 | digit removal distributes over concatenation |
| Text.Decimal | src/store.ts:108 | the decimal rendering of a number is non-empty and made of digits |
| Text.DecimalRoundTrip | src/store.ts:108 | reading the rendering back gives the number |
| Text.DecimalInjective | src/store.ts:108 | different numbers render differently |
| Text.ToLower | src/services/aiService.ts:117 | the length is kept, no capital is left, every other character is unchanged, and each capital becomes its small letter 32 code points on |
| Text.ToLowerOfLower | src/services/aiService.ts:117 | a string without capitals is its own lower case |
| Text.ToLowerIdempotent | src/services/aiService.ts:117 | lower-casing twice is lower-casing once |
| Text.Without | src/services/aiService.ts:27-28 | none of the removed character is left, and every other character of the input is still there; nothing new appears |
| Text.WithoutAppend | src/services/aiService.ts:27-28 | removal distributes over concatenation |
| Text.WithoutEach | src/services/aiService.ts:27-28 | each occurrence of the character is dropped and every other character kept in its place |
| Text.WithoutAbsent | src/services/aiService.ts:27-28 | a text without the character is left unchanged |
| QuizService.Scan | src/services/quizService.ts:43-58 | every choice the loop collects is unmarked and labelled A to D |
| QuizService.ScanLines | src/services/quizService.ts:37-58 | the imperative loop over the lines computes the fields the line-by-line specification gives |
| QuizService.FindChoice | src/services/quizService.ts:66 | `find`: the first choice whose id equals the marker, or none exactly when no id equals it |
| QuizService.FindCorrect | src/services/quizService.ts:66-67 | the search loop returns the index `find` selects, or the length when there is none |
| QuizService.GenerateQuizQuestion | src/services/quizService.ts:33-90 | a failed call gives the fallback; an accepted reply gives its question, explanation and four choices with exactly the first choice named by the marker marked correct; any rejection gives the fallback; the result is always well formed |
| QuizService.FallbackWellFormed | src/services/quizService.ts:80-89 | the fallback has a question, four choices A to D, only A correct, and an explanation |
| QuizService.FinishSpec | src/services/quizService.ts:60-76 | the validation and marking of collected fields: accepted fields keep their question, explanation and choice ids and texts, with only the selected choice correct; anything else yields the fallback |
| QuizService.ParseWellFormed | src/services/quizService.ts:37-90 | the parse never yields a malformed question, whatever the reply |
| QuizService.ChoiceLines | src/services/quizService.ts:46 | the lines the choice rule recognises |
| QuizService.ChoicesFollowChoiceLines | src/services/quizService.ts:46-49 | the choices are the choice lines in order of appearance, duplicates included, each with its letter and trimmed text |
| QuizService.QuestionFromLastTag | src/services/quizService.ts:44-45 | the question is the trimmed remainder of the last `QUESTION:` line |
| QuizService.NoQuestionTag | src/services/quizService.ts:38-45 | without a `QUESTION:` line the question stays empty |
| QuizService.MarkerFromLastTag | src/services/quizService.ts:50-51 | the marker is the trimmed remainder of the last `CORRECT:` line |
| QuizService.StepExplanation | src/services/quizService.ts:52-57 | one line's effect on the explanation depends only on the line and the explanation so far |
| QuizService.ScanExplanation | src/services/quizService.ts:43-58 | the collected explanation equals the explanation-only recurrence |
| QuizService.ExplanationAfterTag | src/services/quizService.ts:52-57 | after an `EXPLANATION:` line, later plain lines are appended as a space and their trimmed text, but only to a non-empty explanation |
| QuizService.ExplanationFromLastTag | src/services/quizService.ts:52-57 | the explanation is the last `EXPLANATION:` line's remainder plus the continuation lines after it, or empty when that remainder is empty |
| QuizService.NoExplanationTag | src/services/quizService.ts:41-57 | without an `EXPLANATION:` line the explanation stays empty: plain lines are dropped |
| QuizService.EmptyExplanationFallsBack | src/services/quizService.ts:52-63 | an empty last `EXPLANATION:` line leads to the fallback even when text follows on the next lines |
| QuizService.MarkerMustBeOneLetter | src/services/quizService.ts:66-69 | a marker that is not one character, such as `B)`, names no choice, so the result is the fallback |
| QuizService.WellFormedReplyExample | src/services/quizService.ts:37-76 | a reply laid out as the prompt asks is accepted, with the named choice alone marked correct |
| QuizQuestion.IsAnswerCorrect | src/components/QuizQuestion.tsx:39-40 | correct only with a selection, and then exactly when the first choice with that id is marked correct |
| QuizQuestion.CorrectAnswerIff | src/components/QuizQuestion.tsx:39-40 | with distinct ids, the answer is correct exactly when the selected choice is a correct one |
| QuizQuestion.FallbackAnswer | src/components/QuizQuestion.tsx:39-40 | on the fallback question only `A` is a correct answer |
| QuizQuestion.QuizPanel.constructor | src/components/QuizQuestion.tsx:25-27 | a new panel has no selection and the explanation hidden |
| QuizQuestion.QuizPanel.Choose | src/components/QuizQuestion.tsx:62-76 | a click sets the selection while the explanation is hidden and changes nothing afterwards |
| QuizQuestion.QuizPanel.Reveal | src/components/QuizQuestion.tsx:91-98 | reveal is offered only with a selection and keeps it; revealed implies selected |
| QuizQuestion.QuizPanel.Next | src/components/QuizQuestion.tsx:27-37 | offered after reveal; on the last question only asks to close, otherwise asks for the next question and clears the selection and the explanation |
| AiService.UnsureIff | src/services/aiService.ts:104-118 | a diagnosis is unsure exactly when its lower-cased form contains one of the nine phrases |
| AiService.UnsureIgnoresCase | src/services/aiService.ts:116-118 | a diagnosis and its lower case are equally unsure, whatever the case of its letters |
| AiService.UnsureIgnoresReply | src/services/aiService.ts:120-161 | for an unsure diagnosis the result does not depend on the model's reply: the call is never made |
| AiService.EvaluateDiagnosis | src/services/aiService.ts:96-182 | unsure gives the encouragement result; a failed call gives the error result; otherwise the reply's evaluation |
| AiService.EvaluateReply | src/services/aiService.ts:164-174 | correct exactly when the verdict is CORRECT and the explanation marker exists; the explanation is the extracted text; a missing verdict or marker gives the error result |
| AiService.CorrectNeedsVerdict | src/services/aiService.ts:116-181 | a diagnosis is judged correct exactly when it is not unsure, the call succeeded, the first verdict says CORRECT and the explanation marker is present |
| AiService.VerdictIsLeftmost | src/services/aiService.ts:164 | the verdict is read at the leftmost position where the pattern matches, and is absent exactly when it matches nowhere |
| AiService.BracketStopsVerdict | src/services/aiService.ts:164 | a `[` after the tag and spaces prevents a match at that position |
| AiService.BracketedVerdict | src/services/aiService.ts:164 | `VERDICT: [CORRECT]`, the prompt's own layout, does not match |
| AiService.LowerCaseVerdict | src/services/aiService.ts:164-172 | the match ignores case: `verdict: correct` reads as correct |
| AiService.SkipSpaces | src/services/aiService.ts:164-165 | `\s*`: the first position after the white space run |
| AiService.FirstMarker | src/services/aiService.ts:165 | the first position where `EXPLICATION:` matches ignoring case, or none when it matches nowhere |
| AiService.CaptureEnd | src/services/aiService.ts:165 | the lazy capture stops at the first `---` or at the end of the text |
| AiService.EmptyExplanationExample | src/services/aiService.ts:165-173 | the explanation may be empty: `EXPLICATION:---` yields `""` |
| AiService.PairsThenStars | src/services/aiService.ts:27-28 | removing `**` pairs then single `*` removes every `*` |
| AiService.NonBlank | src/services/aiService.ts:30 | a line is kept exactly when it is a line of the input that is not blank after trimming; the result is never longer |
| AiService.NonBlankAppend | src/services/aiService.ts:30 | the filter distributes over concatenation |
| AiService.NonBlankEach | src/services/aiService.ts:30 | each line is dropped when blank and kept in its place otherwise |
| AiService.KeptLineShape | src/services/aiService.ts:27-30 | a kept line holds no `*`, no line break, and is not blank |
| AiService.CleanReplyParagraphs | src/services/aiService.ts:29-31 | splitting the cleaned reply on `"\n\n"` gives back the kept lines; no kept line gives the empty text |
| AiService.CleanReplyHasNoStars | src/services/aiService.ts:26-31 | the cleaned reply holds no `*` |
| AiService.MedicalProfessorResponse | src/services/aiService.ts:24-35 | the apology on failure; otherwise exactly the cleaned reply, which holds no `*` |
| AiService.ProgressEvaluation | src/services/aiService.ts:210-222 | the apology on failure; otherwise exactly the cleaned reply, which holds no `*` |
| AiService.EvaluationParagraphs | src/pages/Dashboard.tsx:39 | the paragraphs the evaluation modal shows are the reply's kept lines; with none the evaluation is empty |
| AiService.PatientServicesPassThrough | src/services/aiService.ts:60-93 | the patient services return the model's text untouched or their apology; their answer is empty only for an empty reply |
| AiService.FallbacksNonEmpty | src/services/aiService.ts:32-35 | every apology is non-empty while an empty reply cleans to the empty answer |
| Store.SpecialtyNameInjective | src/store.ts:26-103 | the nine specialty names are pairwise different |
| Store.Keys | src/store.ts:105 | `Object.keys`: exactly the titles of the literal, each once |
| Store.FirstIndex | src/store.ts:105 | the position of the first property with a title, and none earlier has it |
| Store.KeysInOrder | src/store.ts:105 | the keys come in the order of their first occurrence in the literal |
| Store.LookupIsLast | src/store.ts:26-115 | a repeated key takes the value of its last occurrence |
| Store.Titles | src/store.ts:26-103 | the titles of the literal's entries, in order |
| Store.DistinctTitles | src/store.ts:105-115 | with no repeated title the keys are the titles and each lookup gives the entry's own specialty |
| Store.FloorScaled | src/store.ts:110-111 | `Math.floor(Math.random() * n)` lies below `n` |
| Store.PlaceholderNamesTitle | src/store.ts:10-23 | the placeholder content holds the title at a fixed position |
| Store.PlaceholderInjective | src/store.ts:10-23 | different titles give different placeholder contents |
| Store.LessonIdInjective | src/store.ts:108 | different indices give different lesson ids |
| Store.LessonsFrom | src/store.ts:107-116 | one lesson per key |
| Store.LessonsFromSpec | src/store.ts:105-116 | lesson `i` has id `lesson-{i+1}`, the `i`-th key as title, that key's specialty as theme, progress in 0..99, quizzes in 0..4, no PDF, the placeholder content; ids are distinct and themes are specialty names |
| Store.LessonsFollowEntries | src/store.ts:26-116 | with no repeated title, lesson `i` is the literal's `i`-th entry |
| Store.SetProgress | src/store.ts:120-125 | same length and order; lessons with the id get the progress as given; everything else unchanged |
| Store.ClearProgress | src/store.ts:126-131 | same length and order; lessons with the id get progress and quizzes 0; everything else unchanged |
| Store.UpdatesKeepIdentity | src/store.ts:120-131 | neither operation changes an id, a title or a theme |
| Store.UnknownIdIsNoOp | src/store.ts:120-131 | an id that names no lesson changes nothing |
| Store.ClearIdempotent | src/store.ts:126-131 | resetting twice is resetting once |
| Store.SetProgressOverwrites | src/store.ts:120-125 | the last progress set wins |
| Store.ClearAfterSet | src/store.ts:120-131 | a reset erases a preceding progress update |
| Store.LessonStore.constructor | src/store.ts:118-119 | the store starts with the initial lessons, ids distinct and themes known |
| Store.LessonStore.UpdateProgress | src/store.ts:120-125 | the new collection is the update of the old one; ids stay distinct and themes known |
| Store.LessonStore.ResetProgress | src/store.ts:126-131 | the new collection is the reset of the old one; ids stay distinct and themes known |
| Dashboard.ThemeLessons | src/pages/Dashboard.tsx:108 | the filter keeps only lessons of the theme and never lengthens |
| Dashboard.ThemeLessonsMembers | src/pages/Dashboard.tsx:141-143 | a lesson is kept exactly when it is in the collection with the theme |
| Dashboard.ThemeLessonsAppend | src/pages/Dashboard.tsx:142 | the filter keeps the original order: it distributes over concatenation |
| Dashboard.RoundedMean | src/pages/Dashboard.tsx:110-112 | `Math.round(sum / n)`: the integer nearest the mean, halves rounded up |
| Dashboard.ThemeProgress | src/pages/Dashboard.tsx:107-113 | 0 without lessons of the theme; otherwise the rounded mean of their progress |
| Dashboard.ProgressSumBounds | src/pages/Dashboard.tsx:111 | the sum lies between `n` times the least and `n` times the greatest progress |
| Dashboard.RoundedMeanBounds | src/pages/Dashboard.tsx:110-112 | the rounded mean of values within bounds is within those bounds |
| Dashboard.ThemeProgressBounds | src/pages/Dashboard.tsx:107-113 | theme progress lies between the least and greatest progress of its lessons |
| Dashboard.CardsFor | src/pages/Dashboard.tsx:187-197 | one card per specialty, in the given order |
| Dashboard.Cards | src/pages/Dashboard.tsx:187-197 | nine cards |
| Dashboard.CardTotalCounts | src/pages/Dashboard.tsx:187-208 | when every theme is named by exactly one card, the card counts add up to the number of lessons |
| Dashboard.HitsCountSpecialty | src/pages/Dashboard.tsx:187-197 | a specialty's name is hit as many times as the card order lists it |
| Dashboard.CardOrderOnce | src/pages/Dashboard.tsx:188-196 | the grid lists each specialty once |
| Dashboard.CardsCoverLessons | src/pages/Dashboard.tsx:187-208 | with every theme among the nine names, the nine cards count every lesson once |
| Dashboard.DisplayedLessons | src/pages/Dashboard.tsx:141-143 | all lessons without a selection; only lessons of the selected theme with one |
| Dashboard.GridContent | src/pages/Dashboard.tsx:186-226 | the theme grid exactly in theme mode without a selection, nine cards; otherwise the displayed lessons |
| Dashboard.GridShowsSelection | src/pages/Dashboard.tsx:141-226 | with a selection the lesson cards show exactly the theme's lessons in either mode; lesson mode without a selection shows every lesson |
| Dashboard.StatusOf | src/pages/Dashboard.tsx:241-245 | a check at 70 or more, an alert from 1 to 69, no marker at 0 or below |
| Dashboard.StatusMonotone | src/pages/Dashboard.tsx:241-245 | more progress never gives a lower marker |
| Dashboard.AfterMenuClick | src/pages/Dashboard.tsx:98-101 | a click opens the lesson's menu unless it is the open one, which it closes |
| Dashboard.MenuClickTwice | src/pages/Dashboard.tsx:98-101 | two clicks on the same closed menu leave every menu closed |
| Dashboard.Menus.constructor | src/pages/Dashboard.tsx:88 | no menu is open at first |
| Dashboard.Menus.Click | src/pages/Dashboard.tsx:98-101 | the open menu follows the toggle; at most one is open |
| Dashboard.Menus.BackgroundClick | src/pages/Dashboard.tsx:146 | a click on the page closes the menu |
| UploadService.Validate | src/services/uploadService.ts:15-26 | no file, then a media type without `pdf`, then a size above 10 MiB, each with its message; nothing else is refused |
| UploadService.ChecksInOrder | src/services/uploadService.ts:19-26 | the media type is checked before the size; exactly 10 MiB passes |
| UploadService.SanitizeId | src/services/uploadService.ts:30 | the id sent holds only digits, and exactly the digits of the lesson id |
| UploadService.SanitizeIdEach | src/services/uploadService.ts:30 | every non-digit of the lesson id is dropped and every digit kept in its place |
| UploadService.SanitizeIdempotent | src/services/uploadService.ts:30 | sanitising twice is sanitising once |
| UploadService.SanitizeExample | src/services/uploadService.ts:30 | `lesson-12` is sent as `12` |
| UploadService.SanitizeLessonId | src/services/uploadService.ts:30 | the store's id for lesson `i` is sent as the decimal of `i + 1`, so different lessons send different ids |
| UploadService.Request | src/services/uploadService.ts:15-30 | a request exists exactly when validation passes, carrying the file and the sanitised id |
| UploadService.RefusedBeforeRequest | src/services/uploadService.ts:15-33 | a refused file sends nothing, and the outcome does not depend on the server |
| UploadService.Answer | src/services/uploadService.ts:32-50 | a network failure, a `null` body, or an OK answer whose body is not JSON gives the network message; a refusal gives its non-empty `error`, else another non-empty message; an OK answer with any other JSON body gives its `pdfUrl` |
| UploadService.RefusedAnswerMessage | src/services/uploadService.ts:38-49 | a refusal with a `null` body gives the network message; otherwise it carries the body's `error` when it is a non-empty string, `Upload failed` otherwise |
| UploadService.UploadPdf | src/services/uploadService.ts:10-51 | a validation failure wins; otherwise the server's answer decides |
| UploadService.UploadedIff | src/services/uploadService.ts:38-44 | success exactly when validation passes and an OK answer carries a JSON body other than `null` |
| PdfViewer.QuizTransitionsKeepInv | src/components/PDFViewer.tsx:87-116 | with a configuration in range, every quiz transition keeps 1 ≤ n ≤ questions while a configuration is set |
| PdfViewer.StartThenClose | src/components/PDFViewer.tsx:87-93 | starting stores the configuration, closes the dialog and sets n to 1; closing then returns to the initial state |
| PdfViewer.FailedFetchKeepsQuestion | src/components/PDFViewer.tsx:92-97 | a failed fetch leaves the question as it was |
| PdfViewer.NextAdvances | src/components/PDFViewer.tsx:103-110 | below the configured count, n grows by exactly one and the question is the fetched one, or unchanged on failure |
| PdfViewer.NextAtEnd | src/components/PDFViewer.tsx:100-116 | without a configuration nothing changes; at the end next is the same as close |
| PdfViewer.NextAllReachesLast | src/components/PDFViewer.tsx:103-104 | repeated next steps reach the configured count with the configuration kept |
| PdfViewer.SessionLength | src/components/PDFViewer.tsx:87-116 | after a start and `questions - 1` next steps the last question is reached and the next step closes the session |
| PdfViewer.PanelLastMatchesViewer | src/components/QuizQuestion.tsx:27 | the panel's last-question test agrees with the viewer's end-of-session test |
| PdfViewer.CaseRoundTrip | src/components/PDFViewer.tsx:72-84 | an accepted generation ends with the flag down and the case shown, the apology when the call failed |
| PdfViewer.BeginGuard | src/components/PDFViewer.tsx:73-75 | generation is ignored without a title or while one runs, and sets the flag otherwise |
| PdfViewer.CloseCaseForgets | src/components/PDFViewer.tsx:414-417 | closing hides the case and forgets it |
| PdfViewer.Viewer.constructor | src/components/PDFViewer.tsx:26-39 | no quiz, no configuration, n = 1, no case, not generating |
| PdfViewer.Viewer.OpenQuizConfig | src/components/PDFViewer.tsx:301 | the configuration dialog opens; nothing else changes |
| PdfViewer.Viewer.HandleStartQuiz | src/components/PDFViewer.tsx:87-98 | the quiz state follows the start transition; the case is untouched |
| PdfViewer.Viewer.HandleNextQuestion | src/components/PDFViewer.tsx:100-116 | the quiz state follows the next transition; the case is untouched |
| PdfViewer.Viewer.HandleCloseQuiz | src/components/PDFViewer.tsx:402-406 | the quiz state follows the close transition; the case is untouched |
| PdfViewer.Viewer.HandleStartMedicalCase | src/components/PDFViewer.tsx:72-75 | starts exactly with a title and no generation running |
| PdfViewer.Viewer.FinishMedicalCase | src/components/PDFViewer.tsx:76-84 | the case is stored and shown and the flag lowered |
| PdfViewer.Viewer.CloseMedicalCase | src/components/PDFViewer.tsx:414-417 | the case is hidden and forgotten |
| MedicalCase.AnswerMessage | src/components/MedicalCase.tsx:40-49 | the patient's answer, or the system apology exactly when the answer is empty |
| MedicalCase.FailedCallAnswersAsPatient | src/components/MedicalCase.tsx:40-49 | a failed call still answers as the patient with the service's apology; only an empty reply gives the system message |
| MedicalCase.Consultation.constructor | src/components/MedicalCase.tsx:13-21 | the log is exactly the patient message holding the case |
| MedicalCase.Consultation.TypeQuestion | src/components/MedicalCase.tsx:149 | the question field takes the text; every other field is unchanged |
| MedicalCase.Consultation.ToggleDiagnosisInput | src/components/MedicalCase.tsx:162-179 | while no result exists, the input area shown switches; every other field is unchanged |
| MedicalCase.Consultation.TypeDiagnosis | src/components/MedicalCase.tsx:173 | the diagnosis field takes the text; every other field is unchanged |
| MedicalCase.Consultation.BeginSend | src/components/MedicalCase.tsx:31-37 | ignored for a blank question or while loading; otherwise the question is appended, the field emptied and the error cleared; the diagnosis side is unchanged |
| MedicalCase.Consultation.FinishSend | src/components/MedicalCase.tsx:39-53 | exactly one more message; the error set only with the system apology; loading ends |
| MedicalCase.Consultation.BeginSubmit | src/components/MedicalCase.tsx:56-60 | ignored for a blank diagnosis or while loading; otherwise the error is cleared, the diagnosis as it stands is kept as the text submitted, and loading starts; the log and both text fields are unchanged |
| MedicalCase.Consultation.FinishSubmit | src/components/MedicalCase.tsx:62-77 | without title or case an error and the result unchanged; otherwise the evaluation of the text submitted, not of the field as it is now, is stored and the input hidden for good; loading ends; the log and both text fields are unchanged |
| MedicalCase.RetypeDuringEvaluation | src/components/MedicalCase.tsx:56-67 | typing in the diagnosis field while its evaluation runs leaves the stored result that of the text submitted |
| LessonView.FindLesson | src/pages/LessonView.tsx:19 | the first lesson with the id, or none exactly when no lesson has it |
| LessonView.FindDistinct | src/pages/LessonView.tsx:19 | with distinct ids the lookup of a lesson's id finds that lesson |
| LessonView.InitialLessonFound | src/pages/LessonView.tsx:19 | `/lesson/lesson-{i+1}` opens the store's `i`-th initial lesson |
| LessonView.GreetingNamesTitle | src/pages/LessonView.tsx:27-30 | the greeting names the lesson: different titles give different greetings |
| LessonView.Paragraphs | src/pages/LessonView.tsx:66-72 | a message is shown as at least one paragraph |
| LessonView.ParagraphsRoundTrip | src/pages/LessonView.tsx:66-72 | the paragraphs joined back give the message |
| LessonView.AnswerParagraphs | src/pages/LessonView.tsx:43-72 | an assistant answer is shown as the cleaned reply's kept lines, one paragraph each |
| LessonView.LessonChat.constructor | src/pages/LessonView.tsx:19-32 | the first lesson with the id and a log of its greeting alone; without one an empty log |
| LessonView.LessonChat.Type | src/pages/LessonView.tsx:161 | only the field changes |
| LessonView.LessonChat.HoverSuggestions | src/pages/LessonView.tsx:125-126 | only the suggestion list's visibility changes |
| LessonView.LessonChat.BeginSend | src/pages/LessonView.tsx:34-40 | ignored for a blank text, while loading or without a lesson; otherwise the field is emptied and the question appended |
| LessonView.LessonChat.Submit | src/pages/LessonView.tsx:56-59 | the field's text is sent under the same rules; a refused send changes nothing, and the suggestion list is untouched |
| LessonView.LessonChat.AskSuggested | src/pages/LessonView.tsx:61-64 | the list is hidden and the question sent as it is, under the same rules; a refused send leaves the log, the field and the loading flag as they were |
| LessonView.LessonChat.FinishSend | src/pages/LessonView.tsx:42-53 | exactly one assistant message, the professor's answer; loading ends |
| App.RouteOf | src/App.tsx:80-90 | exactly `/` is the dashboard; `/lesson/{id}` is the lesson page for `id` exactly when `id` is one non-empty segment |
| App.LessonPageIsLessonView | src/App.tsx:16-89 | the lesson route is always a lesson view |
| App.LessonCardRoute | src/pages/Dashboard.tsx:94-96 | a lesson card's address routes to that lesson's page |
| App.BackButtonOf | src/App.tsx:16-50 | "Retour" exactly in the lesson view; "Retour aux thèmes" exactly outside it with a theme selected |
| App.BackToThemesSpec | src/App.tsx:63-69 | going back from any state is the initial state, idempotent, and shows the theme grid |
| App.SelectedThemeShown | src/pages/Dashboard.tsx:103-143 | a theme chosen on the grid shows exactly its lessons and offers the way back |
| App.Shell.constructor | src/App.tsx:63-64 | no theme selected, theme layout |
| App.Shell.HandleBackToThemes | src/App.tsx:66-69 | the state after going back |
| App.Shell.SelectTheme | src/pages/Dashboard.tsx:103-105 | a grid card's click selects its specialty |
| App.Shell.ToggleViewMode | src/pages/Dashboard.tsx:159-161 | offered only without a selection; flips the layout |
| App.Shell.Navigate | src/pages/Dashboard.tsx:94-96 | a link changes the address only |

## Left out

- Calls to the language model are a `Reply` parameter, and prompt texts are not modelled. `generateQuizQuestion`'s `difficulty` and the lesson title reach only the prompt.
- `toLowerCase` covers ASCII and Latin-1 capitals only, which is enough for the nine phrases (`û`, `à`). Other Unicode case mappings are not modelled.
- Regular expressions are modelled as the searches they perform, for these patterns only. Case-insensitive matching (`/i` without the `u` flag) folds ASCII letters only, which is exact for the ASCII tags matched here.
- Every title of the theme mapping literal is different. This is used as a hypothesis (`Store.LessonsFollowEntries`, `Store.DistinctTitles`) rather than proved for the 76-entry literal, which is too large to evaluate.
- The dashboard subtitle says "75 leçons" while the mapping has 76 titles. This is display text and is not modelled.
- `Math.random()` is a draw `x / 2^53` with `x` given. `Store.FloorScaled` states the bounds for any such draw.
- `lastAttempt` is a given string. Dates and `toLocaleDateString` are not modelled.
- `PdfViewer.Viewer.FinishMedicalCase`: the `catch` of `handleStartMedicalCase` is dead, because `generatePatientCase` never throws.
- `PdfViewer.FailedFetchKeepsQuestion`: the same holds for the quiz fetch. `generateQuizQuestion` never throws, so the model's `None` fetch covers a path that cannot arise.
- `LessonView.LessonChat.FinishSend`: the system-message branch of `handleSendMessage` is dead, because `getMedicalProfessorResponse` never throws. No system message is modelled.
- The lesson page resets its log when the store hands it a different lesson object. This is a re-render effect (`useEffect` on `lesson`) and is not modelled: the log is reset only when the page opens.
- Asynchronous interleavings are not modelled. Each handler is one or two atomic steps, with one call in flight per log.
- `UploadService.Answer`: body fields that are not strings are outside the model. `error` and `pdfUrl` are either absent or strings. A `null` body is modelled; any other JSON value that is not an object behaves as one without the two properties.
- The upload progress callback and the `fetch` itself are not modelled.
- PDF loading and rendering, the reading-aloud controls, the zoom and its floating-point clamping are not modelled.
- Upload and quiz popups, the quiz configuration dialog's slider defaults, icons and styling are not modelled. The slider bounds 1..20 and 0..100 are the precondition `ConfigInRange`.
- The dashboard's statistics modal and the layout of the AI-evaluation modal are not modelled. The paragraphs the latter shows are `AiService.EvaluationParagraphs`.
- The Express upload endpoints (`server.js`, `api/upload.js`) are not part of this model. They disagree on the stored file name: `{id}.pdf` against `lesson-{id}.pdf`.
- `useFileUpload.ts` is not part of this model. It calls a store operation `uploadPdf` that `store.ts` does not declare.
- `Text.DigitsOnly`: its own contract says which characters remain, not in which order. The order is stated by `Text.DigitsOnlyEach`.
- `Text.Without`: its own contract says which characters remain, not in which order. The order is stated by `Text.WithoutEach`.
- `AiService.NonBlank`: its own contract says which lines remain, not in which order. The order is stated by `AiService.NonBlankEach`.
- `UploadService.SanitizeId`: its own contract says which characters remain, not in which order. The order is stated by `UploadService.SanitizeIdEach`.
- `Store.Keys`: its own contract says which titles are keys, not in which order. The order is stated by `Store.KeysInOrder`.
- `App.RouteOf`: React Router also matches paths case-insensitively and with a trailing slash. Only the exact forms are modelled.
