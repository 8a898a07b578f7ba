/** The progress header of a quiz: the clamped percentage shown as text and
    as the bar width, and the "Question k of n" counter. */
module QuizProgress {
  import opened Strings
  import opened QuizTypes
  import opened QuizSlice

  /** `Math.max(0, Math.min(100, p))`. */
  function Clamp(p: int): (r: int)
    ensures 0 <= r <= 100
    ensures 0 <= p <= 100 ==> r == p
    ensures p < 0 ==> r == 0
    ensures p > 100 ==> r == 100
  {
    if p < 0 then 0 else if p > 100 then 100 else p
  }

  /** Clamping twice is clamping once. */
  lemma ClampIdempotent(p: int)
    ensures Clamp(Clamp(p)) == Clamp(p)
  {
  }

  /** `Math.min(index + 1, total)`. */
  function QuestionNumber(index: int, total: int): (r: int)
    ensures r <= total && r <= index + 1
    ensures r == index + 1 || r == total
  {
    if index + 1 <= total then index + 1 else total
  }

  /** The counter text. */
  function QuestionCounter(index: int, total: int): string {
    "Question " + IntToString(QuestionNumber(index, total)) + " of " + IntToString(total)
  }

  /** The bar's CSS width. */
  function BarWidth(progress: int): string {
    IntToString(Clamp(progress)) + "%"
  }

  /** The percentage text. */
  function ProgressText(progress: int): string {
    IntToString(Clamp(progress)) + "% Complete"
  }

  /** For a consistent session the clamp changes nothing, so the bar and
      the text both show the store's own progress, and the counter shows the
      current question's 1-based position. */
  lemma {:induction false} SessionDisplay(questions: seq<Question>, path: seq<int>, current: nat,
                                          progress: int, isComplete: bool)
    requires ValidSession(questions, path, current, progress, isComplete)
    ensures Clamp(progress) == progress
    ensures BarWidth(progress) == IntToString(progress) + "%"
    ensures ProgressText(progress) == BarWidth(progress) + " Complete"
    ensures |questions| > 0 ==> QuestionNumber(current, |questions|) == current + 1
    ensures |questions| == 0 ==> QuestionNumber(current, |questions|) == 0
    ensures |questions| > 0 ==>
              QuestionCounter(current, |questions|) == "Question " + IntToString(current + 1) + " of " + IntToString(|questions|)
  {
  }
}
