# AI consulting quiz and policy generator — a Dafny model

This project models the core of an application that walks a school or company
through an adaptive quiz and turns the answers into a policy document.

The frontend part covers:

- the quiz data model;
- the condition evaluator and the forward/backward navigation resolver;
- the quiz session store and its reducers;
- the quiz container's validation gate and preview pane;
- the Previous/Next buttons and the progress bar;
- the word-count and reading-time helpers;
- the example counter slice;
- the editable document with its version history, status line and downloads.

The backend part covers:

- the policy-generation service: cache key, prompt, fallback document, content validation and the cache/completion flow;
- the policy, document, contact and quiz controllers;
- the HTML built for a policy PDF and the paragraph list of a policy DOCX.

One Dafny module corresponds to one source file:

| module | models |
|---|---|
| `QuizTypes` | the quiz types |
| `QuizNavigation` | the resolver |
| `QuizSlice` | the session store (`class QuizSession`) |
| `QuizContainer` | the container component |
| `NavigationButtons` | the navigation buttons |
| `QuizProgress` | the progress bar |
| `TextUtils` | the text helpers |
| `ExampleSlice` | the example store (`class Counter`) |
| `EditableDocument` | the editor (`class DocumentEditor`) |
| `OpenAIService` | the generation service |
| `PolicyController`, `DocumentController`, `ContactController`, `QuizController` | the four controllers; `QuizController` holds `class QuizBackend` |
| `PdfService`, `DocxService` | the two document builders |

Shared helpers live in `Wrappers` (`Option`), `Strings` (the JavaScript string operations the source uses), `JsonValue` (JSON values and `JSON.stringify`), `HttpReply` (reply bodies) and `PolicyData` (the policy body both document builders read).

State that the source updates in place is a class with `modifies` clauses:

- the session store's reducers;
- the backend's session table;
- the counter;
- the document editor.

Code that only computes is modelled with functions. Each loop in the source is a method proved equal to a reference function. Those loops are the resolver's scans, the section check, the cache key, the prompt, the fallback text, the phrase check, the HTML and the paragraph builders.

The environment becomes parameters:

- clocks (`now`), generated ids (`freshId`, `sessionId`) and configuration values (API keys, e-mail addresses);
- the outcomes of foreign services: the cache read, the completion endpoint, the PDF renderer, the DOCX packer, the mail sender, the document queue and `fetch`.

The model follows the code as written, including where it departs from the obvious intent:

- `equals` on two arrays checks equal length and that every answer element appears in the value. It is not set or multiset equality (`EqualsIsNotMultisetEquality`).
- The backward fallback scan never marks a question hidden, so it always yields `current - 1`.
- Moving forward to a question that is already on the visit path leaves the path unchanged when the move goes past the last visited question.

## Model

| member | source | states |
|---|---|---|
| QuizNavigation.FindQuestionIndex | frontend/src/lib/quizNavigation.ts:76 | `findIndex` by id: the first question carrying the id, and none exactly when no question carries it |
| QuizNavigation.IndexOf | frontend/src/store/features/quizSlice.ts:118 | `indexOf`: -1 exactly when the id is absent, otherwise its first position |
| QuizNavigation.LastIndexOf | frontend/src/lib/quizNavigation.ts:120 | `lastIndexOf`: -1 exactly when the id is absent, otherwise its last position |
| QuizNavigation.AllConditionsHold | frontend/src/lib/quizNavigation.ts:54 | `every` over the conditions: true exactly when each condition holds, so an empty list holds |
| QuizNavigation.EvaluateConditionalLogic | frontend/src/lib/quizNavigation.ts:49-55 | a rule's conditions combine with AND: true iff every condition evaluates true |
| QuizNavigation.EvaluateCondition | frontend/src/lib/quizNavigation.ts:6-44 | definition of one condition's test; its properties are stated by QuizNavigation.NotEqualsIsNegation, QuizNavigation.NotAnsweredIsComplement and QuizNavigation.EqualsIsNotMultisetEquality |
| QuizNavigation.NotEqualsIsNegation | frontend/src/lib/quizNavigation.ts:10-24 | for every answer and value shape (array/array, array/scalar, scalar) `notEquals` is exactly the negation of `equals` |
| QuizNavigation.NotAnsweredIsComplement | frontend/src/lib/quizNavigation.ts:37-40 | `notAnswered` is exactly the complement of `answered` |
| QuizNavigation.EqualsIsNotMultisetEquality | frontend/src/lib/quizNavigation.ts:12-14 | array `equals` is length plus inclusion: `["a","a"]` equals `["a","b"]` although their multisets differ |
| QuizNavigation.SkipDestination | frontend/src/lib/quizNavigation.ts:75-79 | a rule's skip destination, when there is one, is an index into the quiz |
| QuizNavigation.FirstSkipPosition | frontend/src/lib/quizNavigation.ts:74-81 | the first rule that yields a destination; every earlier rule yields none |
| QuizNavigation.FirstSkip | frontend/src/lib/quizNavigation.ts:73-82 | no skip exactly when no rule of the current question yields a destination; a skip is a valid index |
| QuizNavigation.FirstVisible | frontend/src/lib/quizNavigation.ts:85-103 | the first question from a position on that no true `hide` rule hides, and -1 exactly when all of them are hidden |
| QuizNavigation.NextQuestionIndex | frontend/src/lib/quizNavigation.ts:61-104 | the forward step ends the quiz (-1) or lands on a valid index |
| QuizNavigation.DetermineNextQuestionIndex | frontend/src/lib/quizNavigation.ts:61-104 | the resolver's loops over skip rules and later questions compute exactly the reference forward step |
| QuizNavigation.NextAtEndIsEnd | frontend/src/lib/quizNavigation.ts:66-68 | from the last question, past it, or in an empty quiz the forward step is -1 |
| QuizNavigation.NextFollowsFirstSkip | frontend/src/lib/quizNavigation.ts:73-82 | the first applicable `skipTo` rule (target given, conditions true, target present) decides; rules before it are passed over |
| QuizNavigation.NextWithoutSkip | frontend/src/lib/quizNavigation.ts:84-103 | without an applicable skip the step is the smallest later index whose question is not hidden, or -1 when every later one is hidden |
| QuizNavigation.NextIsLinearWithoutLogic | frontend/src/lib/quizNavigation.ts:84-103 | in a quiz without conditional logic the forward step is `current + 1` before the last question |
| QuizNavigation.PreviousQuestionIndex | frontend/src/lib/quizNavigation.ts:112-154 | the backward step is -1 exactly at the first question and a valid index otherwise |
| QuizNavigation.DeterminePreviousQuestionIndex | frontend/src/lib/quizNavigation.ts:112-154 | the resolver's backward step computes exactly the reference backward step |
| QuizNavigation.PreviousFollowsPath | frontend/src/lib/quizNavigation.ts:119-128 | when the current id's last path occurrence is past position 0 and its predecessor is a quiz question, the step goes to that predecessor |
| QuizNavigation.PreviousFallsBack | frontend/src/lib/quizNavigation.ts:130-153 | when the path gives no usable predecessor the step is exactly `current - 1` |
| QuizSlice.ProgressRounding | frontend/src/store/features/quizSlice.ts:27-33 | progress is 0 for an empty quiz, otherwise the integer nearest to 100·(i+1)/n with halves rounded up |
| QuizSlice.CalculateProgress | frontend/src/store/features/quizSlice.ts:27-33 | definition of `calculateProgress`; its properties are stated by QuizSlice.ProgressRounding, QuizSlice.ProgressInRange, QuizSlice.ProgressAtLastQuestion and QuizSlice.ProgressMonotone |
| QuizSlice.ProgressInRange | frontend/src/store/features/quizSlice.ts:27-33 | for an index inside the quiz the progress lies in 0..100 |
| QuizSlice.ProgressAtLastQuestion | frontend/src/store/features/quizSlice.ts:27-33 | the last question shows 100 |
| QuizSlice.ProgressMonotone | frontend/src/store/features/quizSlice.ts:27-33 | progress never decreases as the index grows |
| QuizSlice.LastVisitedIndex | frontend/src/store/features/quizSlice.ts:105-106 | the position of the first question named by the last path entry, and -1 exactly for an empty path or an id no question carries |
| QuizSlice.ForwardPath | frontend/src/store/features/quizSlice.ts:101-127 | after a forward move the new id is on the path. An absent id is appended. A present id leaves the path unchanged when the move goes past the last visited question, and otherwise cuts it just after the id's first occurrence |
| QuizSlice.BackwardPath | frontend/src/store/features/quizSlice.ts:139-143 | a backward move cuts the path just after the id's last occurrence, or leaves it when the id is absent |
| QuizSlice.JumpPath | frontend/src/store/features/quizSlice.ts:151-160 | a direct jump appends an absent id, or cuts the path at the id's first occurrence |
| QuizSlice.ForwardKeepsPathInvariant | frontend/src/store/features/quizSlice.ts:101-127 | a forward path update keeps the path duplicate-free, made of quiz ids and starting at the first question |
| QuizSlice.BackwardKeepsPathInvariant | frontend/src/store/features/quizSlice.ts:139-143 | a backward path update keeps that invariant |
| QuizSlice.JumpKeepsPathInvariant | frontend/src/store/features/quizSlice.ts:151-160 | a jump keeps that invariant |
| QuizSlice.InitialState | frontend/src/store/features/quizSlice.ts:7-24 | the initial state has no questions, answers or path, index 0, progress 0, not complete |
| QuizSlice.InitialStateValid | frontend/src/store/features/quizSlice.ts:7-24 | the initial state satisfies the session invariant |
| QuizSlice.StartIsValid | frontend/src/store/features/quizSlice.ts:63-79 | starting a quiz with distinct question ids establishes the session invariant |
| QuizSlice.ForwardKeepsValid | frontend/src/store/features/quizSlice.ts:92-130 | both outcomes of a forward move (completion, or a move with its path update) keep the session invariant |
| QuizSlice.BackwardFollowsPathWhenValid | frontend/src/store/features/quizSlice.ts:131-143 | in a valid session the backward step always goes to the path predecessor of the current id, never to the fallback |
| QuizSlice.PreviousKeepsValid | frontend/src/store/features/quizSlice.ts:131-146 | a backward move keeps the session invariant |
| QuizSlice.JumpKeepsValid | frontend/src/store/features/quizSlice.ts:147-162 | a direct jump keeps the session invariant |
| QuizSlice.BackUndoesForward | frontend/src/store/features/quizSlice.ts:92-146 | stepping forward to a new question and then back returns to the same question and restores the path |
| QuizSlice.RejectionMessage | frontend/src/store/features/quizSlice.ts:211-214 | a rejected generation shows its payload, or "Failed to generate policy." when there is none |
| QuizSlice.QuizSession.constructor | frontend/src/store/features/quizSlice.ts:7-24 | the store starts in the initial state, which is valid |
| QuizSlice.QuizSession.StartQuiz | frontend/src/store/features/quizSlice.ts:63-79 | index 0, empty answers and errors, not complete, no end time, path of the first id (or empty), progress for index 0; policy fields untouched |
| QuizSlice.QuizSession.AnswerQuestion | frontend/src/store/features/quizSlice.ts:80-89 | only that answer is replaced and only that id's errors are dropped; the invariant is kept |
| QuizSlice.QuizSession.NavigateToNextQuestion | frontend/src/store/features/quizSlice.ts:92-130 | -1 completes the quiz with progress 100 and the end time, index and path unchanged; otherwise index, progress and forward path are set; the invariant is kept |
| QuizSlice.QuizSession.NavigateToPreviousQuestion | frontend/src/store/features/quizSlice.ts:131-146 | -1 changes nothing; otherwise index, progress and the backward-cut path are set; the invariant is kept |
| QuizSlice.QuizSession.SetCurrentQuestionIndex | frontend/src/store/features/quizSlice.ts:147-162 | out-of-range indices change nothing; otherwise index, progress and the jump path are set; the invariant is kept |
| QuizSlice.QuizSession.SetQuizComplete | frontend/src/store/features/quizSlice.ts:163-167 | complete, end time set, progress 100; the invariant is kept |
| QuizSlice.QuizSession.LoadQuizFromStorage | frontend/src/store/features/quizSlice.ts:168-172 | a stored state is spread over the current one: each key it carries replaces the current value, and a missing title, start time or end time keeps the current one; no stored state changes nothing |
| QuizSlice.Merge | frontend/src/store/features/quizSlice.ts:168-172 | definition of the spread `{...state, ...payload}`; its properties are stated by QuizSlice.LoadRestoresSnapshot, and QuizSlice.QuizSession.LoadQuizFromStorage performs it |
| QuizSlice.LoadRestoresSnapshot | frontend/src/store/features/quizSlice.ts:168-172 | loading a saved snapshot restores the saved state except for a start or end time the snapshot lacks, which comes from the state loaded into; over its own state a snapshot loads back exactly |
| QuizSlice.QuizSession.UpdateValidationError | frontend/src/store/features/quizSlice.ts:173-178 | sets that question's error list only |
| QuizSlice.QuizSession.ClearValidationErrors | frontend/src/store/features/quizSlice.ts:179-183 | removes that question's error list only |
| QuizSlice.QuizSession.ResetQuiz | frontend/src/store/features/quizSlice.ts:184-186 | back to the initial state |
| QuizSlice.QuizSession.UpdateActiveQuestionPath | frontend/src/store/features/quizSlice.ts:187-189 | replaces the path only |
| QuizSlice.QuizSession.SetGeneratedPolicyContent | frontend/src/store/features/quizSlice.ts:190-193 | stores the content and clears the error |
| QuizSlice.QuizSession.SetPolicyGenerationError | frontend/src/store/features/quizSlice.ts:194-196 | stores the error only |
| QuizSlice.QuizSession.SetPolicyGenerationStatus | frontend/src/store/features/quizSlice.ts:197-199 | stores the in-flight flag only |
| QuizSlice.QuizSession.GeneratePolicyPending | frontend/src/store/features/quizSlice.ts:203-206 | in flight, error cleared |
| QuizSlice.QuizSession.GeneratePolicyFulfilled | frontend/src/store/features/quizSlice.ts:207-210 | no longer in flight, content stored |
| QuizSlice.QuizSession.GeneratePolicyRejected | frontend/src/store/features/quizSlice.ts:211-214 | no longer in flight, error is the payload or the default message |
| QuizContainer.FirstRequiredIndex | frontend/src/components/quiz/QuizContainer.tsx:107 | `find` of the first `required` rule: every earlier rule is of another kind |
| QuizContainer.RequiredError | frontend/src/components/quiz/QuizContainer.tsx:107-109 | an error exactly when a `required` rule exists and the answer is blank; its text is the rule's message, or the default when that is empty |
| QuizContainer.BlankVersusAnswered | frontend/src/components/quiz/QuizContainer.tsx:108 | the required check and `answered` disagree only on `null` (passes both ways) and on an empty array |
| QuizContainer.ValidateCurrentQuestion | frontend/src/components/quiz/QuizContainer.tsx:101-115 | true with no current question; otherwise fails exactly for a blank required answer, recording the one message, and on success records an empty list |
| QuizContainer.RequiredBlocksOnlyBlank | frontend/src/components/quiz/QuizContainer.tsx:107-114 | with a required rule, a question passes exactly when its answer is not undefined, `''` or an empty array |
| QuizContainer.HandleNext | frontend/src/components/quiz/QuizContainer.tsx:117-123 | moves forward exactly when validation passes. Either way the current question's error list is recorded: one message on failure, empty on success. On failure nothing else changes. On success the forward step sets index, progress and path, or completes the quiz. The invariant is kept |
| QuizContainer.HandlePrevious | frontend/src/components/quiz/QuizContainer.tsx:125-128 | always performs the backward step: with no earlier question the index, progress and path stay as they were; otherwise the earlier question becomes current, with its progress and the path cut after that question's last occurrence; the session invariant is kept |
| QuizContainer.HandleGeneratePreview | frontend/src/components/quiz/QuizContainer.tsx:130-139 | a request is made exactly when at least one answer exists, and it sets the in-flight state |
| QuizContainer.EnabledButtonRequests | frontend/src/components/quiz/QuizContainer.tsx:226 | an enabled button always has answers to send; it is disabled while a request is in flight |
| QuizContainer.GenerateButtonDisabled | frontend/src/components/quiz/QuizContainer.tsx:226 | definition of the preview button's `disabled`; its properties are stated by QuizContainer.EnabledButtonRequests |
| QuizContainer.ErrorPreview | frontend/src/components/quiz/QuizContainer.tsx:191 | the error preview is the heading, then the error verbatim inside a code block, then the fallback note |
| QuizContainer.PreviewContent | frontend/src/components/quiz/QuizContainer.tsx:187-194 | precedence: in-flight text, then error text, then generated content, then the placeholder |
| QuizContainer.RejectionShowsError | frontend/src/components/quiz/QuizContainer.tsx:190-191 | after a rejection the pane shows the error preview |
| QuizContainer.FulfilledShowsContent | frontend/src/components/quiz/QuizContainer.tsx:192-193 | after a fulfilled request with non-empty content the pane shows that content |
| QuizContainer.StartEffect | frontend/src/components/quiz/QuizContainer.tsx:81-87 | a quiz is started exactly when the stored id is empty or differs from the requested one. A start loads the requested quiz, title and questions under a fresh session id, at index 0 with no answers or errors, the first id as path, that index's progress and the start time. Otherwise the whole state is unchanged |
| QuizContainer.ShouldStartQuiz | frontend/src/components/quiz/QuizContainer.tsx:84 | definition of the start condition; QuizContainer.StartEffect and QuizContainer.StartedQuizIsNotRestarted state its effect |
| QuizContainer.StartedQuizIsNotRestarted | frontend/src/components/quiz/QuizContainer.tsx:84 | once the requested non-empty quiz is loaded it is not started again |
| NavigationButtons.NextLabel | frontend/src/components/quiz/QuizNavigation.tsx:35 | the label is "Finish" or "Next" |
| NavigationButtons.DefaultButtons | frontend/src/components/quiz/QuizNavigation.tsx:19-33 | with the default flags Previous is enabled exactly off index 0 and Next exactly before the last question |
| NavigationButtons.PreviousDisabled | frontend/src/components/quiz/QuizNavigation.tsx:26 | definition of the Previous button's `disabled`; its properties are stated by NavigationButtons.DefaultButtons |
| NavigationButtons.NextDisabled | frontend/src/components/quiz/QuizNavigation.tsx:33 | definition of the Next button's `disabled`; its properties are stated by NavigationButtons.DefaultButtons and NavigationButtons.FinishIsAlwaysDisabled |
| NavigationButtons.FinishIsAlwaysDisabled | frontend/src/components/quiz/QuizNavigation.tsx:33-35 | as written, a button labelled "Finish" is disabled whatever the flag; a "Next" button is disabled exactly by the flag |
| NavigationButtons.CorrectedFinishCompletes | frontend/src/components/quiz/QuizNavigation.tsx:33-35 | with the corrected rule the last question's "Finish" is enabled, and the forward step it triggers ends the quiz |
| QuizProgress.Clamp | frontend/src/components/quiz/QuizProgress.tsx:14 | the shown percentage lies in 0..100, equals an in-range input, and is 0 or 100 for inputs out of range |
| QuizProgress.ClampIdempotent | frontend/src/components/quiz/QuizProgress.tsx:14 | clamping twice is clamping once |
| QuizProgress.QuestionNumber | frontend/src/components/quiz/QuizProgress.tsx:20 | the question number is min(index + 1, total) |
| QuizProgress.SessionDisplay | frontend/src/components/quiz/QuizProgress.tsx:14-27 | for a valid session the clamp changes nothing, so the bar width and the text show the store's own progress, and the number shown is index + 1 (0 for an empty quiz) |
| QuizProgress.QuestionCounter | frontend/src/components/quiz/QuizProgress.tsx:20 | definition of the counter text; QuizProgress.SessionDisplay states that it shows index + 1 of the quiz's length |
| QuizProgress.ProgressText | frontend/src/components/quiz/QuizProgress.tsx:22 | definition of the percentage text; QuizProgress.SessionDisplay states that it shows the store's progress |
| QuizProgress.BarWidth | frontend/src/components/quiz/QuizProgress.tsx:27 | definition of the bar's CSS width; QuizProgress.SessionDisplay states that it matches the percentage text |
| TextUtils.StripTags | frontend/src/lib/textUtils.ts:14 | replacing tags never lengthens the text |
| TextUtils.StripTagsLeavesNoTag | frontend/src/lib/textUtils.ts:14 | no `<` is followed by a `>` once tags are replaced, and no `>` appears that was not in the text |
| TextUtils.StripTagsKeepsPlainText | frontend/src/lib/textUtils.ts:14 | text without `<` is unchanged |
| TextUtils.StripTagsUnclosed | frontend/src/lib/textUtils.ts:14 | text without `>` is unchanged, so a `<` that is never closed is kept together with everything after it |
| TextUtils.StripTagsPlainPrefix | frontend/src/lib/textUtils.ts:14 | text without `<` in front of any rest is kept as it is, and only the rest is stripped |
| TextUtils.StripTagsReplacesTag | frontend/src/lib/textUtils.ts:14 | a tag after plain text becomes exactly one space: the text before it is kept and the text after it is stripped on its own |
| TextUtils.MaskMarkdown | frontend/src/lib/textUtils.ts:15 | each Markdown character becomes a space and every other character is kept |
| TextUtils.CountRuns | frontend/src/lib/textUtils.ts:19-22 | the number of maximal non-white runs is at most the text length |
| TextUtils.CalculateWordCount | frontend/src/lib/textUtils.ts:7-23 | 0 for a missing or empty text |
| TextUtils.CollapseKeepsRuns | frontend/src/lib/textUtils.ts:16 | collapsing white space keeps the number of runs |
| TextUtils.TrimKeepsRuns | frontend/src/lib/textUtils.ts:17 | trimming keeps the number of runs |
| TextUtils.SplitCountsRuns | frontend/src/lib/textUtils.ts:22 | the non-empty pieces of the split are exactly the runs |
| TextUtils.WordCountCountsRuns | frontend/src/lib/textUtils.ts:7-23 | the word count is the number of non-white runs of the cleaned text, so it never exceeds the text length |
| TextUtils.CalculateReadingTime | frontend/src/lib/textUtils.ts:32-41 | 0 for no words or a non-positive speed |
| TextUtils.ReadingTimeIsCeiling | frontend/src/lib/textUtils.ts:39-40 | otherwise the least m with m·wpm ≥ wordCount |
| ExampleSlice.Counter.constructor | frontend/src/store/features/exampleSlice.ts:11-14 | value 0, status idle |
| ExampleSlice.Counter.Increment | frontend/src/store/features/exampleSlice.ts:20-22 | one more; status unchanged |
| ExampleSlice.Counter.Decrement | frontend/src/store/features/exampleSlice.ts:23-25 | one less; status unchanged |
| ExampleSlice.Counter.IncrementByAmount | frontend/src/store/features/exampleSlice.ts:27-29 | adds the payload; status unchanged |
| ExampleSlice.IncrementThenDecrement | frontend/src/store/features/exampleSlice.ts:20-25 | increment followed by decrement restores value and status |
| EditableDocument.PrependShape | frontend/src/components/document/EditableDocument.tsx:70-71 | a save puts the new version first, keeps the earlier ones in order, has 1..10 entries, and drops only the oldest beyond 10 |
| EditableDocument.Prepend | frontend/src/components/document/EditableDocument.tsx:70-71 | definition of `[v, ...versions].slice(0, 10)`; its properties are stated by EditableDocument.PrependShape |
| EditableDocument.MigratedShape | frontend/src/components/document/EditableDocument.tsx:39-46 | legacy content is prepended only when no version has it; afterwards some version has it; the list stays within 10 |
| EditableDocument.Migrated | frontend/src/components/document/EditableDocument.tsx:39-46 | definition of the legacy migration; its properties are stated by EditableDocument.MigratedShape |
| EditableDocument.FirstTimestamp | frontend/src/components/document/EditableDocument.tsx:117 | `find` by content: none exactly when no version has the content, else a matching version's timestamp |
| EditableDocument.GetStatusMessage | frontend/src/components/document/EditableDocument.tsx:116-130 | each message is shown exactly in its case, in the order restored, unsaved, saving/saved/error, then "All changes saved" or "Ready" |
| EditableDocument.StripQuotes | frontend/src/components/document/EditableDocument.tsx:170 | no quote survives, and text without quotes is unchanged |
| EditableDocument.ClosingQuote | frontend/src/components/document/EditableDocument.tsx:167 | the lazy quoted group ends at the first matching quote not preceded by a line terminator |
| EditableDocument.DownloadFilenameDefault | frontend/src/components/document/EditableDocument.tsx:164-172 | without a disposition that contains "attachment" the file is saved as `document_export.pdf` |
| EditableDocument.DownloadFilename | frontend/src/components/document/EditableDocument.tsx:164-172 | definition of the file name read from the disposition; its properties are stated by EditableDocument.DownloadFilenameDefault and EditableDocument.DispositionRoundTrip |
| EditableDocument.DispositionRoundTrip | frontend/src/components/document/EditableDocument.tsx:164-172 | the name the backend puts in `attachment; filename="<safe>.pdf"` is read back exactly as `<safe>.pdf` |
| EditableDocument.DocxBodyIsValid | frontend/src/components/document/EditableDocument.tsx:192-195 | the DOCX export body always passes the backend's policy checks, so a queued job is answered 202 |
| EditableDocument.ExportNameIsSafe | frontend/src/components/document/EditableDocument.tsx:151 | the export name survives the backend's sanitising unchanged |
| EditableDocument.PdfBodyDownloads | frontend/src/components/document/EditableDocument.tsx:151-172 | for non-empty content the PDF request yields a download that the editor saves as `document_export.pdf` |
| EditableDocument.DocumentEditor.constructor | frontend/src/components/document/EditableDocument.tsx:18-25 | empty content and versions, idle statuses, clean |
| EditableDocument.DocumentEditor.Load | frontend/src/components/document/EditableDocument.tsx:28-59 | unreadable storage, or a failed write of the migrated list, gives the error status and changes nothing else: the legacy key stays and the stored list is not replaced; otherwise the versions are the migrated list, the legacy key is removed, changed lists are stored, and the newest version is opened as saved |
| EditableDocument.DocumentEditor.Save | frontend/src/components/document/EditableDocument.tsx:62-84 | an unchanged save is skipped (saving turns into saved); a storage failure gives the error status with nothing stored; otherwise the new version is prepended and the status is saved |
| EditableDocument.DocumentEditor.EditorChange | frontend/src/components/document/EditableDocument.tsx:86-96 | dirty exactly when the content differs from the last save, and a save is scheduled exactly then |
| EditableDocument.DocumentEditor.RestoreVersion | frontend/src/components/document/EditableDocument.tsx:102-114 | current and last-saved content become the version's, status restored, clean, versions unchanged |
| EditableDocument.DocumentEditor.Download | frontend/src/components/document/EditableDocument.tsx:136-223 | empty content sends nothing; PDF sends the raw-HTML body and saves under the parsed name or sets the error; DOCX sends the one-section body and ends queued or in error |
| EditableDocument.NewestVersionStatus | frontend/src/components/document/EditableDocument.tsx:116-125 | with the newest version open and clean the status reads "All changes saved" once saved, and after a restore names that version's time (the current time when it has none) |
| OpenAIService.SortByKeySorted | backend/src/services/openAIService.ts:44 | sorting entries with distinct keys yields strictly increasing keys |
| OpenAIService.SortedUnique | backend/src/services/openAIService.ts:44-48 | two strictly sorted orderings of the same entries are equal |
| OpenAIService.CacheKey | backend/src/services/openAIService.ts:43-51 | the key starts with `policy_gen_cache:` |
| OpenAIService.GenerateCacheKey | backend/src/services/openAIService.ts:43-51 | the sorting loop and `JSON.stringify` compute the reference cache key |
| OpenAIService.CacheKeyIgnoresOrder | backend/src/services/openAIService.ts:43-51 | the same answers in any member order get the same cache key |
| OpenAIService.Label | backend/src/services/openAIService.ts:54-62 | keys other than 1, 2 and 3 are labelled "Response to Question k" |
| OpenAIService.NormaliseValue | backend/src/services/openAIService.ts:63-70 | `null` and `''` read "(Not answered)"; a non-empty string is kept |
| OpenAIService.UserInfo | backend/src/services/openAIService.ts:59-74 | with no answers the block is "No specific user information provided.\n" |
| OpenAIService.Truncate | backend/src/services/openAIService.ts:76-79 | info over 2000 characters becomes its first 1997 plus "...", exactly 2000 long; shorter info is unchanged |
| OpenAIService.Prompt | backend/src/services/openAIService.ts:81-87 | the prompt starts with the fixed request and its length is bounded by the truncated info |
| OpenAIService.ConstructPrompt | backend/src/services/openAIService.ts:53-88 | the loop over the answers computes the reference prompt |
| OpenAIService.EveryAnswerIsListed | backend/src/services/openAIService.ts:61-73 | every answer's line appears in the user-info block |
| OpenAIService.CompanyIdentifierIsFirstTruthy | backend/src/services/openAIService.ts:91-101 | the first truthy key among the company keys alone decides the name; none gives "your company" |
| OpenAIService.FallbackText | backend/src/services/openAIService.ts:102-110 | the fallback starts with its heading and contains "(Details: d)" when details d are given |
| OpenAIService.GetFallbackContent | backend/src/services/openAIService.ts:90-112 | the loop and the appends compute the reference fallback |
| OpenAIService.FallbackContent | backend/src/services/openAIService.ts:90-112 | reference definition of `getFallbackContent`; its properties are stated by OpenAIService.FallbackText and OpenAIService.CompanyIdentifierIsFirstTruthy, and OpenAIService.GetFallbackContent computes it |
| OpenAIService.FindPhrase | backend/src/services/openAIService.ts:120-125 | true exactly when one of the phrases occurs in the text |
| OpenAIService.IsValidContent | backend/src/services/openAIService.ts:114-127 | valid exactly when a string whose trimmed length is at least 50 contains none of the six error phrases, ignoring case |
| OpenAIService.ValidContent | backend/src/services/openAIService.ts:114-127 | reference definition of acceptable text; OpenAIService.IsValidContent computes it and OpenAIService.CacheHoldsOnlyValidContent relies on it |
| OpenAIService.GeneratePolicyContent | backend/src/services/openAIService.ts:129-196 | a missing key returns the not-configured fallback before any cache access; valid cached text is returned as is |
| OpenAIService.GenerationIsValidOrFallback | backend/src/services/openAIService.ts:129-196 | the result is never missing: it is valid text or a fallback with non-empty details |
| OpenAIService.CacheHoldsOnlyValidContent | backend/src/services/openAIService.ts:135-178 | only validated text is cached, under the answers' key, and it is the text returned; the endpoint is called exactly when there is a key and no valid cached text |
| OpenAIService.CachedTextServesReorderedAnswers | backend/src/services/openAIService.ts:135-142 | validly generated text is cached under a key that every member order of the same answers produces, and is then served from the cache for them |
| PolicyController.QuizResponses | backend/src/controllers/policyController.ts:7 | `req.body.quizResponses` is a member of the body |
| PolicyController.ResponseEntries | backend/src/controllers/policyController.ts:14 | one entry per own key of the responses |
| PolicyController.Classify | backend/src/controllers/policyController.ts:14-35 | 200 exactly for non-empty text not starting with "Error:", with `{policyContent}`; every other outcome is 500 |
| PolicyController.GeneratePolicy | backend/src/controllers/policyController.ts:5-36 | 400 exactly for missing, non-object or empty responses; otherwise the service outcome decides |
| PolicyController.ErrorTextReplies | backend/src/controllers/policyController.ts:16-35 | "Error:" text gives 500, with the not-configured message exactly when the marker occurs; empty content and thrown errors give their 500 replies |
| PolicyController.FallbackIsNotErrorText | backend/src/controllers/policyController.ts:16 | a fallback document never starts with "Error:" and is never empty |
| PolicyController.PlainTextIsServed | backend/src/controllers/policyController.ts:26-31 | non-empty text without the prefix is served with 200 |
| PolicyController.WithGenerationService | backend/src/controllers/policyController.ts:14-31 | with the real service the reply is 200 unless the endpoint itself produced valid text that starts with "Error:" |
| PolicyController.MissingKeyServesFallback | backend/src/controllers/policyController.ts:14-31 | a missing API key is served as the fallback document with 200, never as the not-configured error |
| PolicyController.FallbackIsServed | backend/src/controllers/policyController.ts:26-31 | every fallback document is served with 200 |
| DocumentController.FirstIllFormed | backend/src/controllers/documentController.ts:25-30 | the first section whose title or content is not a string; all earlier ones are well formed |
| DocumentController.CreatePolicy | backend/src/controllers/documentController.ts:16-56 | the shape check, the section loop and the job reply compute the reference reply |
| DocumentController.PolicyReplyCases | backend/src/controllers/documentController.ts:20-37 | 202 exactly for a truthy title, non-empty sections all well formed and a queued job; 400 exactly for a bad shape or a bad non-null section; else 500 |
| DocumentController.PolicyReply | backend/src/controllers/documentController.ts:16-56 | reference definition of `createPdfPolicy` / `createDocxPolicy`; its properties are stated by DocumentController.PolicyReplyCases and DocumentController.KindsValidateAlike |
| DocumentController.IllFormedReply | backend/src/controllers/documentController.ts:25-30 | definition of the reply for an ill-formed section; DocumentController.PolicyReplyCases states its 400 and 500 cases |
| DocumentController.JobReply | backend/src/controllers/documentController.ts:33-55 | definition of the reply once the body is valid; DocumentController.PolicyReplyCases states its 202 and 500 cases |
| DocumentController.KindsValidateAlike | backend/src/controllers/documentController.ts:58-98 | the PDF and DOCX endpoints give every body the same status |
| DocumentController.SanitizeFilename | backend/src/controllers/documentController.ts:118 | same length; each character kept when in `[A-Za-z0-9_.-]`, otherwise `_` |
| DocumentController.SanitizeFilenameProperties | backend/src/controllers/documentController.ts:118 | the result holds only safe characters, sanitising is idempotent, and a name is unchanged exactly when it was safe |
| DocumentController.RawPdfRejects | backend/src/controllers/documentController.ts:109-112 | 400 exactly when `htmlContent` is not a non-empty string |
| DocumentController.RawPdfDownloads | backend/src/controllers/documentController.ts:105-133 | a download exactly for rendered non-empty HTML whose name is absent or a string; the disposition uses the sanitised name or "document" |
| ContactController.SchoolOrNA | backend/src/controllers/contactController.ts:53 | a missing school reads "N/A" |
| ContactController.HtmlLines | backend/src/controllers/contactController.ts:60 | no line break survives in the HTML message |
| ContactController.ContactGuards | backend/src/controllers/contactController.ts:18-70 | a missing key is 500 first; 400 exactly for a missing field or an address without "@" or "."; mail is attempted exactly when all guards pass and both addresses are configured; 200 exactly when it was sent |
| ContactController.MailContents | backend/src/controllers/contactController.ts:42-53 | the mail replies to the sender; the subject names the school exactly when one is given; the text shows "N/A" otherwise |
| ContactController.HtmlLinesJoinLines | backend/src/controllers/contactController.ts:60 | the HTML keeps the message lines in order joined by `<br>`, three characters longer per line break |
| PdfService.SectionBlocks | backend/src/services/pdfService.ts:67-72 | one block per section |
| PdfService.BuildPolicyHtml | backend/src/services/pdfService.ts:62-76 | the loop over the sections computes the reference HTML |
| PdfService.PolicyHtml | backend/src/services/pdfService.ts:62-76 | reference definition of the policy page; its properties are stated by PdfService.PolicyHtmlLayout, and PdfService.BuildPolicyHtml computes it |
| PdfService.PolicyHtmlLayout | backend/src/services/pdfService.ts:65-73 | the page starts with the title head and `<h1>`, ends with `</body></html>`, and has each section's `<h2>`/`<p>` block in order |
| PdfService.ContentLines | backend/src/services/pdfService.ts:71 | the content lines are kept in order, joined by `<br />`, and no raw newline is left |
| PdfService.GeneratePdfFromPolicyData | backend/src/services/pdfService.ts:62-76 | a printed policy is the PDF of exactly the policy HTML, and a failed render gives the error. The layout of that HTML is stated by PolicyHtmlLayout and ContentLines |
| DocxService.ContentParagraphs | backend/src/services/docxService.ts:47-53 | one paragraph per line: line breaks + 1, so empty content still gives one |
| DocxService.BuildParagraphs | backend/src/services/docxService.ts:25-55 | the loop over the sections computes the reference paragraph list |
| DocxService.PolicyParagraphs | backend/src/services/docxService.ts:25-55 | reference definition of the paragraph list; its properties are stated by DocxService.PolicyParagraphsShape and DocxService.SectionsParagraphsCount, and DocxService.BuildParagraphs computes it |
| DocxService.SectionsParagraphsCount | backend/src/services/docxService.ts:38-55 | each section contributes 1 + (line breaks + 1) paragraphs |
| DocxService.PolicyParagraphsShape | backend/src/services/docxService.ts:28-55 | the title paragraph comes first (bold, size 48, centred) and the list holds one more paragraph than the sections' headings and lines together |
| DocxService.ContentParagraphsRoundTrip | backend/src/services/docxService.ts:47-53 | joining the paragraphs' texts with newlines gives back the content |
| DocxService.PolicyDocument | backend/src/services/docxService.ts:57-74 | the page margin is 1440 on every side and the document carries the title and the paragraph list. The shape of that list is stated by PolicyParagraphsShape, SectionsParagraphsCount and ContentParagraphsRoundTrip |
| DocxService.GeneratePolicyDocx | backend/src/services/docxService.ts:20-99 | success gives the document; any failure is reported with the "DOCX generation failed: " prefix |
| QuizController.QuizBackend.constructor | backend/src/controllers/quizController.ts:7-18 | the sample quiz and no sessions |
| QuizController.QuizBackend.GetQuizDefinition | backend/src/controllers/quizController.ts:20-28 | 200 with the quiz exactly when the id is known, otherwise 404 |
| QuizController.QuizBackend.CreateQuizSession | backend/src/controllers/quizController.ts:30-46 | stores a fresh session under the generated id and answers 201 with it |
| QuizController.QuizBackend.GetQuizSession | backend/src/controllers/quizController.ts:48-56 | 200 with the session exactly when the id is known |
| QuizController.QuizBackend.SubmitResponse | backend/src/controllers/quizController.ts:58-78 | the table and the reply are those of the reference submission |
| QuizController.QuizBackend.CompleteQuizSession | backend/src/controllers/quizController.ts:80-91 | the table and the reply are those of the reference completion |
| QuizController.SubmitEffect | backend/src/controllers/quizController.ts:62-77 | 404 and 400 leave the table unchanged; success replaces only that answer of that session |
| QuizController.NewSession | backend/src/controllers/quizController.ts:35-43 | definition of a fresh session; its properties are stated by QuizController.NewSessionAcceptsAnswers |
| QuizController.Submit | backend/src/controllers/quizController.ts:62-77 | definition of `submitResponse` on the session table; its properties are stated by QuizController.SubmitEffect |
| QuizController.Complete | backend/src/controllers/quizController.ts:80-91 | definition of `completeQuizSession` on the session table; its properties are stated by QuizController.CompleteEffect |
| QuizController.CompleteEffect | backend/src/controllers/quizController.ts:80-91 | completion sets the flag and end time, changes nothing else in that session or any other, may be repeated, and blocks later submissions |
| QuizController.NewSessionAcceptsAnswers | backend/src/controllers/quizController.ts:35-43 | a new session has no answers, index 0, is not completed, and accepts a submission |

## Left out

- Floating point. Numbers are integers. `Math.round` in the progress is the integer formula ⌊(200·(i+1)+n)/(2n)⌋. `greaterThan`/`lessThan` compare integers. `Math.ceil` in the reading time is an integer ceiling. `NaN`, fractions and `Date` answers are not represented.
- Clocks, randomness and formatting. `Date.now`, `new Date()`, `crypto.randomUUID` and the random session suffix are parameters. `toLocaleString` is not modelled: a restored status carries the raw timestamp.
- Timers. The 2.5-second debounce of the editor's auto-save is not modelled, and neither are the stale-state reads of its callbacks. A save is a separate step with the content to save. The 5-second `setTimeout` status resets after a download are also not modelled.
- The editor reference and `setContent` on restore: these are imperative calls into the rich-text widget.
- Network and foreign services. The following are outcome parameters:
  - the `generatePolicyForQuiz` fetch, whose three outcomes drive the reducers;
  - the frontend `fetch` calls;
  - Redis and the OpenAI completion endpoint;
  - Puppeteer, the docx `Packer`, SendGrid and `addDocumentJob`.
  backend/src/index.ts:9-11,34-36 leaves the quiz, policy and document routes unmounted, so as shipped no request reaches those controllers or `addDocumentJob`; only the contact route is mounted. The model takes the queue's answer as a parameter.
- The file write of `generatePolicyDocx` when an output path is given (`fs.writeFile`): file I/O.
- The "Failed to generate PDF buffer" branch of `generateRawPdf`: the renderer either returns a buffer or throws, so that branch is unreachable.
- General JavaScript values:
  - frontend answers are a small tagged type (text, integer, list of choices, file handle, `null`, undefined);
  - backend JSON is a tree of null, booleans, integers, strings, arrays and objects with ordered members;
  - prototype keys such as `quizzes['constructor']`, getters and cyclic objects are not represented;
  - contact fields are strings or absent.
- Unicode. `toLowerCase` is modelled for ASCII letters only. Characters outside the Basic Multilingual Plane are single characters here, whereas JavaScript counts them as two code units. `JSON.stringify` escapes only what a string of such characters needs.
- OpenAIService.IsValidContent: the error phrases are matched after lower-casing ASCII letters only. Text whose non-ASCII letters would lower-case onto a phrase is not caught.
- QuizNavigation.PreviousQuestionIndex: it requires the index to be 0 or inside the quiz. The source throws a `TypeError` for a positive index at or past the end, which only corrupt stored state can produce. The same precondition is on QuizNavigation.DeterminePreviousQuestionIndex, QuizSlice.QuizSession.NavigateToPreviousQuestion and QuizContainer.HandlePrevious.
- QuizNavigation.DeterminePreviousQuestionIndex: the fallback `while` loop is written as its single pass. Its body never sets `isHidden`, so it returns `currentIndex - 1` on the first iteration.
- QuizSlice.QuizSession.LoadQuizFromStorage: the index is a natural number, so a negative index from a corrupt stored state is not represented. The `metadata` field is not modelled. A stored `null` in an optional key is not told apart from a missing key. A stored object that lacks a required key is not represented.
- DocumentController.GenerateRawPdf: its contract is stated by the lemmas RawPdfRejects and RawPdfDownloads rather than on the function itself.
- OpenAIService.CompanyIdentifier: its contract is stated by CompanyIdentifierIsFirstTruthy.
- ContactController.HandleContactForm: its contract is stated by ContactGuards and MailContents.
- EditableDocument.DocumentEditor.Load: stored versions that are valid JSON but not a list of versions are not represented. The source then fails inside `find` or later.
- QuizController.QuizBackend.CreateQuizSession: two requests with the same generated id overwrite each other. The model keeps that as a map update. Question ids in submissions are string keys.
- Authentication, routes, rate limiting, the Express wiring, the marketing pages, the question renderer and the Markdown preview renderer: presentation or wiring with no logic of their own in this core.

## Findings

| source | as written | input that shows it | evidently intended | confidence | as-written member | corrected member |
|---|---|---|---|---|---|---|
| frontend/src/components/quiz/QuizNavigation.tsx:33 | the forward button is disabled whenever `currentQuestionIndex >= totalQuestions - 1`, which is exactly when its label reads "Finish" | a 3-question quiz at index 2: the button reads "Finish" and is disabled, so the quiz cannot be finished from the buttons | the button stays enabled on the last question, disabled only by `isNextDisabled`, so "Finish" triggers the forward step that completes the quiz | not executed | NavigationButtons.FinishIsAlwaysDisabled | NavigationButtons.CorrectedFinishCompletes |
