/** The Previous/Next buttons under a quiz question: when each is disabled
    and what the forward button says. */
module NavigationButtons {
  import opened QuizTypes
  import opened QuizNavigation

  /** Both extra disable flags default to off. */
  const DefaultPreviousDisabled := false
  const DefaultNextDisabled := false

  /** Previous is disabled on the first question or when the caller says so. */
  predicate PreviousDisabled(index: int, isPreviousDisabled: bool) {
    index == 0 || isPreviousDisabled
  }

  /** Next is disabled from the last question on, or when the caller says so. */
  predicate NextDisabled(index: int, total: int, isNextDisabled: bool) {
    index >= total - 1 || isNextDisabled
  }

  /** The forward button reads "Finish" from the last question on. */
  function NextLabel(index: int, total: int): (r: string)
    ensures r == "Finish" || r == "Next"
  {
    if index >= total - 1 then "Finish" else "Next"
  }

  /** With the default flags, Previous is enabled exactly off the first
      question and Next exactly before the last one. */
  lemma DefaultButtons(index: int, total: int)
    ensures !PreviousDisabled(index, DefaultPreviousDisabled) <==> index != 0
    ensures !NextDisabled(index, total, DefaultNextDisabled) <==> index < total - 1
  {
  }

  /** As written, a button labelled "Finish" is always disabled, whatever
      the flag: the Next button cannot be used on the last question. */
  lemma FinishIsAlwaysDisabled(index: int, total: int, isNextDisabled: bool)
    ensures NextLabel(index, total) == "Finish" ==> NextDisabled(index, total, isNextDisabled)
    ensures NextLabel(index, total) == "Next" ==> (NextDisabled(index, total, isNextDisabled) <==> isNextDisabled)
  {
  }

  /** The button that was evidently meant: disabled only by the caller's
      flag, so that "Finish" can be pressed. */
  predicate CorrectedNextDisabled(index: int, total: int, isNextDisabled: bool) {
    isNextDisabled
  }

  /** With the corrected rule, on the last question of a non-empty quiz the
      "Finish" button is enabled by default, and the forward resolution it
      triggers reports the end of the quiz, which completes the session. */
  lemma {:induction false} CorrectedFinishCompletes(questions: seq<Question>, responses: Responses)
    requires |questions| > 0
    ensures var last := |questions| - 1;
            && NextLabel(last, |questions|) == "Finish"
            && !CorrectedNextDisabled(last, |questions|, DefaultNextDisabled)
            && NextQuestionIndex(last, questions, responses) == -1
  {
    NextAtEndIsEnd(|questions| - 1, questions, responses);
  }
}
