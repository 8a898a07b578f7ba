/** The quiz page's controller logic: the `required` gate that decides
    whether "Next" may run, the Next/Previous/preview handlers that dispatch
    to the session, the preview-text selection and the guard of the effect
    that starts a quiz. The handlers work on a `QuizSession`, the model of
    the store slice. */
module QuizContainer {
  import opened Wrappers
  import opened QuizTypes
  import opened QuizNavigation
  import opened QuizSlice

  const DefaultRequiredMessage := "This field is required."

  const GeneratingPreview := "# Generating Preview...\n\nPlease wait while the policy content is being generated."

  /** Position of the first `required` rule (`find` over the rules), or
      `|rules|` when there is none. */
  function FirstRequiredIndex(rules: seq<ValidationRule>): (k: nat)
    ensures k <= |rules|
    ensures k < |rules| ==> rules[k].kind == Required
    ensures forall j :: 0 <= j < k ==> rules[j].kind != Required
  {
    if rules == [] then 0
    else if rules[0].kind == Required then 0
    else 1 + FirstRequiredIndex(rules[1..])
  }

  /** The answers the `required` check rejects: a missing or undefined
      answer, the empty string and an empty selection. `null` is accepted. */
  predicate Blank(answer: Answer) {
    answer == Undefined || answer == Text("") || answer == Choices([])
  }

  /** The error message `validateCurrentQuestion` records for question `q`
      answered by `answer`, or `None` when the question passes. */
  function RequiredError(q: Question, answer: Answer): (r: Option<string>)
    ensures r.Some? <==> (exists k :: 0 <= k < |q.validationRules| && q.validationRules[k].kind == Required) && Blank(answer)
    ensures r.Some? ==> r.value != ""
    ensures r.Some? && q.validationRules[FirstRequiredIndex(q.validationRules)].message != "" ==>
              r.value == q.validationRules[FirstRequiredIndex(q.validationRules)].message
    ensures r.Some? && q.validationRules[FirstRequiredIndex(q.validationRules)].message == "" ==>
              r.value == DefaultRequiredMessage
  {
    var k := FirstRequiredIndex(q.validationRules);
    if k < |q.validationRules| && Blank(answer) then
      var message := q.validationRules[k].message;
      Some(if message == "" then DefaultRequiredMessage else message)
    else
      None
  }

  /** The `required` gate and the `answered` operator of conditions agree on
      every answer except two: `null` passes the gate though it counts as
      unanswered, and an empty selection fails the gate though it counts as
      answered. */
  lemma BlankVersusAnswered(answer: Answer)
    ensures answer != Null && answer != Choices([]) ==> (Blank(answer) <==> !IsAnswered(answer))
    ensures !Blank(Null) && !IsAnswered(Null)
    ensures Blank(Choices([])) && IsAnswered(Choices([]))
  {
  }

  /** `validateCurrentQuestion`: with no current question it passes and
      records nothing; otherwise it records the question's error list (one
      message, or empty when it passes) and reports whether it passed. */
  method ValidateCurrentQuestion(s: QuizSession) returns (ok: bool)
    modifies s`validationErrors
    ensures s.currentQuestionIndex >= |s.questions| ==> ok && s.validationErrors == old(s.validationErrors)
    ensures s.currentQuestionIndex < |s.questions| ==>
              var q := s.questions[s.currentQuestionIndex];
              var e := RequiredError(q, ResponseTo(s.responses, q.id));
              && ok == e.None?
              && s.validationErrors == old(s.validationErrors)[q.id := if e.Some? then [e.value] else []]
  {
    if s.currentQuestionIndex >= |s.questions| {
      return true;
    }
    var q := s.questions[s.currentQuestionIndex];
    var e := RequiredError(q, ResponseTo(s.responses, q.id));
    if e.Some? {
      s.UpdateValidationError(q.id, [e.value]);
      return false;
    }
    s.UpdateValidationError(q.id, []);
    return true;
  }

  /** Whether validation lets "Next" proceed; the value-level partner of
      `ValidateCurrentQuestion`. */
  predicate PassesValidation(questions: seq<Question>, current: nat, responses: Responses) {
    current >= |questions| ||
    RequiredError(questions[current], ResponseTo(responses, questions[current].id)).None?
  }

  /** A required question left blank blocks "Next"; any other answer to it
      (including `null`) lets it through. */
  lemma {:induction false} RequiredBlocksOnlyBlank(questions: seq<Question>, current: nat, responses: Responses, k: nat)
    requires current < |questions| && k < |questions[current].validationRules|
    requires questions[current].validationRules[k].kind == Required
    ensures PassesValidation(questions, current, responses) <==>
              !Blank(ResponseTo(responses, questions[current].id))
  {
    var q := questions[current];
    var e := RequiredError(q, ResponseTo(responses, q.id));
    assert exists j :: 0 <= j < |q.validationRules| && q.validationRules[j].kind == Required;
  }

  /** `handleNext`: validates, recording the current question's error list
      either way, and only when that passes moves forward. */
  method HandleNext(s: QuizSession, now: int) returns (advanced: bool)
    modifies s`validationErrors, s`isComplete, s`endTime, s`progress, s`currentQuestionIndex,
             s`activeQuestionPath
    ensures advanced == PassesValidation(s.questions, old(s.currentQuestionIndex), s.responses)
    ensures old(s.currentQuestionIndex) >= |s.questions| ==> s.validationErrors == old(s.validationErrors)
    ensures old(s.currentQuestionIndex) < |s.questions| ==>
              var q := s.questions[old(s.currentQuestionIndex)];
              var e := RequiredError(q, ResponseTo(s.responses, q.id));
              s.validationErrors == old(s.validationErrors)[q.id := if e.Some? then [e.value] else []]
    ensures !advanced ==>
              && s.currentQuestionIndex == old(s.currentQuestionIndex) && s.progress == old(s.progress)
              && s.activeQuestionPath == old(s.activeQuestionPath)
              && s.isComplete == old(s.isComplete) && s.endTime == old(s.endTime)
    ensures advanced ==>
              var next := NextQuestionIndex(old(s.currentQuestionIndex), s.questions, s.responses);
              if next == -1 then
                && s.isComplete && s.endTime == Some(now) && s.progress == 100
                && s.currentQuestionIndex == old(s.currentQuestionIndex)
                && s.activeQuestionPath == old(s.activeQuestionPath)
              else
                && s.currentQuestionIndex == next
                && s.progress == CalculateProgress(next, |s.questions|)
                && s.activeQuestionPath == ForwardPath(old(s.activeQuestionPath), s.questions, next)
                && s.isComplete == old(s.isComplete) && s.endTime == old(s.endTime)
    ensures old(s.Valid()) ==> s.Valid()
  {
    advanced := ValidateCurrentQuestion(s);
    if advanced {
      s.NavigateToNextQuestion(now);
    }
  }

  /** `handlePrevious`: moves backward unconditionally. */
  method HandlePrevious(s: QuizSession)
    requires s.currentQuestionIndex == 0 || s.currentQuestionIndex < |s.questions|
    modifies s`currentQuestionIndex, s`progress, s`activeQuestionPath
    ensures var prev := PreviousQuestionIndex(old(s.currentQuestionIndex), old(s.activeQuestionPath), s.questions);
            if prev == -1 then
              && s.currentQuestionIndex == old(s.currentQuestionIndex) && s.progress == old(s.progress)
              && s.activeQuestionPath == old(s.activeQuestionPath)
            else
              && s.currentQuestionIndex == prev && s.progress == CalculateProgress(prev, |s.questions|)
              && s.activeQuestionPath == BackwardPath(old(s.activeQuestionPath), s.questions[prev].id)
    ensures old(s.Valid()) ==> s.Valid()
  {
    s.NavigateToPreviousQuestion();
  }

  /** `handleGeneratePreview`: requests generation only when at least one
      answer has been recorded. */
  method HandleGeneratePreview(s: QuizSession) returns (requested: bool)
    modifies s`isGeneratingPolicy, s`policyGenerationError
    ensures requested <==> |s.responses| > 0
    ensures requested ==> s.isGeneratingPolicy && s.policyGenerationError == None
    ensures !requested ==>
              s.isGeneratingPolicy == old(s.isGeneratingPolicy)
              && s.policyGenerationError == old(s.policyGenerationError)
  {
    requested := |s.responses| > 0;
    if requested {
      s.GeneratePolicyPending();
    }
  }

  /** The preview button is disabled while a request is in flight and while
      there are no answers. */
  predicate GenerateButtonDisabled(isGenerating: bool, responses: Responses) {
    isGenerating || |responses| == 0
  }

  /** An enabled button always leads to a request, and the request it
      starts disables the button again until it settles. */
  lemma EnabledButtonRequests(isGenerating: bool, responses: Responses)
    ensures !GenerateButtonDisabled(isGenerating, responses) ==> |responses| > 0
    ensures GenerateButtonDisabled(true, responses)
  {
  }

  /** JavaScript truthiness of an optional string. */
  predicate Truthy(s: Option<string>) {
    s.Some? && s.value != ""
  }

  const ErrorPreviewStart := "# Error Generating Preview\n\nAn error occurred:\n\n```\n"
  const ErrorPreviewEnd := "\n```\n\nUsing fallback content."

  /** The preview text shown for a failed generation: the heading, then the
      error verbatim inside a code block, then the fallback note. */
  function ErrorPreview(error: string): (r: string)
    ensures |r| == |ErrorPreviewStart| + |error| + |ErrorPreviewEnd|
    ensures ErrorPreviewStart <= r
    ensures r[|ErrorPreviewStart|..|ErrorPreviewStart| + |error|] == error
    ensures r[|ErrorPreviewStart| + |error|..] == ErrorPreviewEnd
  {
    ErrorPreviewStart + error + ErrorPreviewEnd
  }

  /** The preview pane's text: the in-flight message first, then the error,
      then the generated content, then the placeholder. */
  function PreviewContent(isGenerating: bool, error: Option<string>, content: Option<string>,
                          placeholder: string): (r: string)
    ensures isGenerating ==> r == GeneratingPreview
    ensures !isGenerating && Truthy(error) ==> r == ErrorPreview(error.value)
    ensures !isGenerating && !Truthy(error) && Truthy(content) ==> r == content.value
    ensures !isGenerating && !Truthy(error) && !Truthy(content) ==> r == placeholder
  {
    if isGenerating then GeneratingPreview
    else if Truthy(error) then ErrorPreview(error.value)
    else if Truthy(content) then content.value
    else placeholder
  }

  /** After a rejection the pane always shows the error, whatever content an
      earlier request left behind: the rejection message is never empty. */
  lemma RejectionShowsError(payload: Option<string>, content: Option<string>, placeholder: string)
    ensures PreviewContent(false, Some(RejectionMessage(payload)), content, placeholder)
            == ErrorPreview(RejectionMessage(payload))
  {
  }

  /** After a request that succeeded with non-empty text the pane shows that
      text: the pending step cleared any earlier error and success does not
      set one. */
  lemma FulfilledShowsContent(content: string, placeholder: string)
    requires content != ""
    ensures PreviewContent(false, None, Some(content), placeholder) == content
  {
  }

  /** The start effect's guard: a quiz is (re)started when none is loaded or
      a different one is. */
  predicate ShouldStartQuiz(storedQuizId: string, requestedQuizId: string) {
    storedQuizId == "" || storedQuizId != requestedQuizId
  }

  /** The start effect: starts the requested quiz when the guard says so,
      with no session id of its own, so the store generates `freshId`. */
  method StartEffect(s: QuizSession, requestedQuizId: string, questionsToLoad: seq<Question>,
                     quizTitle: string, freshId: string, now: int) returns (started: bool)
    modifies s`quizId, s`questions, s`title, s`sessionId, s`currentQuestionIndex,
             s`responses, s`activeQuestionPath, s`progress, s`isComplete,
             s`startTime, s`endTime, s`validationErrors
    ensures started == ShouldStartQuiz(old(s.quizId), requestedQuizId)
    ensures started ==>
              && s.quizId == requestedQuizId && s.questions == questionsToLoad && s.title == quizTitle
              && s.sessionId == freshId
              && s.currentQuestionIndex == 0 && s.responses == map[] && s.validationErrors == map[]
              && s.activeQuestionPath == (if |questionsToLoad| > 0 then [questionsToLoad[0].id] else [])
              && s.progress == CalculateProgress(0, |questionsToLoad|) && !s.isComplete
              && s.startTime == Some(now) && s.endTime == None
    ensures started && UniqueIds(questionsToLoad) ==> s.Valid()
    ensures !started ==> s.State() == old(s.State())
  {
    started := ShouldStartQuiz(s.quizId, requestedQuizId);
    if started {
      s.StartQuiz(requestedQuizId, questionsToLoad, Some(quizTitle), None, freshId, now);
      if UniqueIds(questionsToLoad) {
        StartIsValid(questionsToLoad);
      }
    }
  }

  /** Once a quiz with a non-empty id has been started, the effect does not
      start it again; a quiz with the empty id is restarted on every run. */
  lemma StartedQuizIsNotRestarted(requestedQuizId: string)
    ensures !ShouldStartQuiz(requestedQuizId, requestedQuizId) <==> requestedQuizId != ""
  {
  }
}
