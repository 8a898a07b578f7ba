/** The quiz session store: the state of one quiz run and the reducers that
    update it in place (starting, answering, moving forward and back, marking
    complete, validation errors and the policy-generation status). */
module QuizSlice {
  import opened Wrappers
  import opened QuizTypes
  import opened QuizNavigation

  // ---------------------------------------------------------------------------
  // Progress
  // ---------------------------------------------------------------------------

  /** `calculateProgress`: 0 for an empty quiz, otherwise the percentage
      `(index + 1) / total * 100` rounded half up. */
  function CalculateProgress(index: nat, total: nat): int {
    if total == 0 then 0 else (200 * (index + 1) + total) / (2 * total)
  }

  /** The progress is 0 for an empty quiz and otherwise the integer nearest
      to `100 * (index + 1) / total`, halves rounded up. */
  lemma ProgressRounding(index: nat, total: nat)
    ensures total == 0 ==> CalculateProgress(index, total) == 0
    ensures total > 0 ==> var p := CalculateProgress(index, total);
              2 * total * p <= 200 * (index + 1) + total < 2 * total * p + 2 * total
  {
  }

  /** Cancelling a positive factor in `<=`. */
  lemma MulLe(a: int, b: int, c: int)
    requires c > 0 && a * c <= b * c
    ensures a <= b
  {
  }

  /** Cancelling a positive factor in `<`. */
  lemma MulLt(a: int, b: int, c: int)
    requires c > 0 && a * c < b * c
    ensures a < b
  {
  }

  /** Progress of a question inside the quiz is a percentage. */
  lemma {:induction false} ProgressInRange(index: nat, total: nat)
    requires index < total
    ensures 0 <= CalculateProgress(index, total) <= 100
  {
    var p := CalculateProgress(index, total);
    ProgressRounding(index, total);
    assert p * (2 * total) <= 101 * (2 * total);
    MulLe(p, 101, 2 * total);
    assert -1 * (2 * total) < p * (2 * total);
  }

  /** The last question shows full progress. */
  lemma {:induction false} ProgressAtLastQuestion(total: nat)
    requires total > 0
    ensures CalculateProgress(total - 1, total) == 100
  {
    var p := CalculateProgress(total - 1, total);
    ProgressRounding(total - 1, total);
    assert p * (2 * total) < 101 * (2 * total);
    MulLt(p, 101, 2 * total);
    assert 99 * (2 * total) < p * (2 * total);
    MulLt(99, p, 2 * total);
  }

  /** Progress never goes down as the index goes up. */
  lemma {:induction false} ProgressMonotone(i: nat, j: nat, total: nat)
    requires i <= j
    ensures CalculateProgress(i, total) <= CalculateProgress(j, total)
  {
    if total > 0 {
      var p, q := CalculateProgress(i, total), CalculateProgress(j, total);
      ProgressRounding(i, total);
      ProgressRounding(j, total);
      assert 2 * total * p <= 200 * (i + 1) + total <= 200 * (j + 1) + total < 2 * total * q + 2 * total;
      MulLt(p, q + 1, 2 * total);
    }
  }

  // ---------------------------------------------------------------------------
  // The visit path
  // ---------------------------------------------------------------------------

  /** The position of the question that the last path entry names: -1 for
      an empty path (its last entry is `undefined`) or an id no question
      carries, otherwise the first question with that id. */
  function LastVisitedIndex(path: seq<int>, questions: seq<Question>): (r: int)
    ensures -1 <= r < |questions|
    ensures path == [] ==> r == -1
    ensures path != [] ==>
              && (r == -1 <==> forall j :: 0 <= j < |questions| ==> questions[j].id != path[|path| - 1])
              && (r != -1 ==> questions[r].id == path[|path| - 1]
                              && forall j :: 0 <= j < r ==> questions[j].id != path[|path| - 1])
  {
    if path == [] then -1
    else match FindQuestionIndex(questions, path[|path| - 1])
         case Some(k) => k as int
         case None => -1
  }

  /** The path after a forward move to `questions[next]`: when `next` lies
      beyond the question of the last path entry the id is appended unless it
      is already present; otherwise the path is cut after the id's FIRST
      occurrence, or the id appended when it is absent. */
  function ForwardPath(path: seq<int>, questions: seq<Question>, next: nat): (r: seq<int>)
    requires next < |questions|
    ensures questions[next].id in r
    ensures questions[next].id !in path ==> r == path + [questions[next].id]
    ensures questions[next].id in path && next > LastVisitedIndex(path, questions) ==> r == path
    ensures questions[next].id in path && next <= LastVisitedIndex(path, questions) ==>
              r == path[..IndexOf(path, questions[next].id) + 1]
  {
    var id := questions[next].id;
    if next > LastVisitedIndex(path, questions) then
      (if id in path then path else path + [id])
    else
      var existing := IndexOf(path, id);
      if existing != -1 then path[..existing + 1] else path + [id]
  }

  /** The path after a backward move to the question with id `id`: cut after
      the id's LAST occurrence, unchanged when it is absent. */
  function BackwardPath(path: seq<int>, id: int): (r: seq<int>)
    ensures |r| <= |path| && r == path[..|r|]
    ensures id in path ==> r != [] && r[|r| - 1] == id && id !in path[|r|..]
    ensures id !in path ==> r == path
  {
    var last := LastIndexOf(path, id);
    if last != -1 then path[..last + 1] else path
  }

  /** The path after jumping straight to the question with id `id`: appended
      when absent, otherwise cut after its FIRST occurrence; either way the
      path then ends with `id`. */
  function JumpPath(path: seq<int>, id: int): (r: seq<int>)
    ensures r != [] && r[|r| - 1] == id
    ensures id !in path ==> r == path + [id]
    ensures id in path ==> |r| <= |path| && r == path[..|r|] && id !in r[..|r| - 1]
  {
    if id !in path then path + [id]
    else path[..IndexOf(path, id) + 1]
  }

  /** The path keeps the questions visited, without repetition, starting at
      the first question, and only ids of the quiz's questions. */
  ghost predicate PathInvariant(path: seq<int>, questions: seq<Question>) {
    && (|questions| == 0 ==> path == [])
    && (|questions| > 0 ==> path != [] && path[0] == questions[0].id)
    && (forall i, j :: 0 <= i < j < |path| ==> path[i] != path[j])
    && (forall k :: 0 <= k < |path| ==> path[k] in QuestionIds(questions))
  }

  /** A prefix of an invariant path that keeps the first entry is invariant. */
  lemma PrefixKeepsPathInvariant(path: seq<int>, questions: seq<Question>, n: nat)
    requires PathInvariant(path, questions)
    requires 0 < n <= |path|
    ensures PathInvariant(path[..n], questions)
  {
  }

  /** Appending a new question id to an invariant path keeps it invariant. */
  lemma AppendKeepsPathInvariant(path: seq<int>, questions: seq<Question>, k: nat)
    requires PathInvariant(path, questions)
    requires |questions| > 0 && k < |questions| && questions[k].id !in path
    ensures PathInvariant(path + [questions[k].id], questions)
  {
    var r := path + [questions[k].id];
    forall i, j | 0 <= i < j < |r| ensures r[i] != r[j] {
      if j == |path| {
        assert r[i] == path[i];
      }
    }
  }

  /** A forward move keeps the path invariant. */
  lemma ForwardKeepsPathInvariant(path: seq<int>, questions: seq<Question>, next: nat)
    requires PathInvariant(path, questions)
    requires next < |questions|
    ensures PathInvariant(ForwardPath(path, questions, next), questions)
  {
    var id := questions[next].id;
    var r := ForwardPath(path, questions, next);
    if id !in path {
      AppendKeepsPathInvariant(path, questions, next);
    } else {
      PrefixKeepsPathInvariant(path, questions, |r|);
    }
  }

  /** A backward move keeps the path invariant. */
  lemma BackwardKeepsPathInvariant(path: seq<int>, questions: seq<Question>, id: int)
    requires PathInvariant(path, questions)
    ensures PathInvariant(BackwardPath(path, id), questions)
  {
    var r := BackwardPath(path, id);
    if id in path {
      PrefixKeepsPathInvariant(path, questions, |r|);
    }
  }

  /** A direct jump keeps the path invariant. */
  lemma JumpKeepsPathInvariant(path: seq<int>, questions: seq<Question>, k: nat)
    requires PathInvariant(path, questions)
    requires k < |questions|
    ensures PathInvariant(JumpPath(path, questions[k].id), questions)
  {
    var id := questions[k].id;
    if id !in path {
      AppendKeepsPathInvariant(path, questions, k);
    } else {
      PrefixKeepsPathInvariant(path, questions, |JumpPath(path, id)|);
    }
  }

  // ---------------------------------------------------------------------------
  // The session state
  // ---------------------------------------------------------------------------

  /** The state a fresh store holds, and the one `resetQuiz` returns to. */
  function InitialState(): (s: QuizState)
    ensures s.questions == [] && s.activeQuestionPath == [] && s.responses == map[]
    ensures s.currentQuestionIndex == 0 && s.progress == 0 && !s.isComplete
  {
    QuizState("", "", "", 0, [], map[], [], 0, false, None, None, map[], None, false, None)
  }

  /** `{...current, ...stored}`: every key the stored object carries
      replaces the current value; a missing `title`, `startTime` or
      `endTime` keeps the current one. */
  function Merge(current: QuizState, stored: StoredQuizState): QuizState {
    QuizState(stored.sessionId, stored.quizId,
              if stored.title.Some? then stored.title.value else current.title,
              stored.currentQuestionIndex, stored.questions, stored.responses,
              stored.activeQuestionPath, stored.progress, stored.isComplete,
              if stored.startTime.Some? then stored.startTime else current.startTime,
              if stored.endTime.Some? then stored.endTime else current.endTime,
              stored.validationErrors, stored.generatedPolicyContent,
              stored.isGeneratingPolicy, stored.policyGenerationError)
  }

  /** What `JSON.stringify` keeps of a state: an undefined start or end time
      has no key in the stored object. */
  function Snapshot(s: QuizState): StoredQuizState {
    StoredQuizState(s.sessionId, s.quizId, Some(s.title), s.currentQuestionIndex, s.questions,
                    s.responses, s.activeQuestionPath, s.progress, s.isComplete,
                    s.startTime, s.endTime, s.validationErrors, s.generatedPolicyContent,
                    s.isGeneratingPolicy, s.policyGenerationError)
  }

  /** Loading a saved snapshot restores the saved state, except that a
      start or end time the snapshot lacks is taken from the state it is
      loaded into: a run saved before it started or ended picks up the
      times of whatever run is in the store. Over the state it was taken
      from, a snapshot loads back exactly. */
  lemma LoadRestoresSnapshot(current: QuizState, saved: QuizState)
    ensures var r := Merge(current, Snapshot(saved));
            && r.(startTime := saved.startTime, endTime := saved.endTime) == saved
            && r.startTime == (if saved.startTime.Some? then saved.startTime else current.startTime)
            && r.endTime == (if saved.endTime.Some? then saved.endTime else current.endTime)
    ensures saved.startTime.Some? && saved.endTime.Some? ==> Merge(current, Snapshot(saved)) == saved
    ensures Merge(saved, Snapshot(saved)) == saved
  {
  }

  /** The consistency of a session: unique question ids, an invariant path
      holding the current question, an index inside the quiz and a progress
      that is a percentage, equal to the index's progress until completion. */
  ghost predicate ValidSession(questions: seq<Question>, path: seq<int>, current: nat,
                               progress: int, isComplete: bool) {
    && UniqueIds(questions)
    && PathInvariant(path, questions)
    && (|questions| == 0 ==> current == 0)
    && (|questions| > 0 ==> current < |questions| && questions[current].id in path)
    && 0 <= progress <= 100
    && (!isComplete ==> progress == CalculateProgress(current, |questions|))
  }

  /** The consistency of a session snapshot. */
  ghost predicate ValidState(s: QuizState) {
    ValidSession(s.questions, s.activeQuestionPath, s.currentQuestionIndex, s.progress, s.isComplete)
  }

  /** The initial state is consistent. */
  lemma InitialStateValid()
    ensures ValidState(InitialState())
  {
  }

  /** Starting a quiz whose question ids are unique gives a consistent session. */
  lemma {:induction false} StartIsValid(questions: seq<Question>)
    requires UniqueIds(questions)
    ensures ValidSession(questions, if |questions| > 0 then [questions[0].id] else [], 0,
                         CalculateProgress(0, |questions|), false)
  {
    if |questions| > 0 {
      ProgressInRange(0, |questions|);
      assert questions[0].id in QuestionIds(questions);
    }
  }

  /** A forward move to any question of the quiz keeps the session
      consistent; so does completing the quiz. */
  lemma {:induction false} ForwardKeepsValid(questions: seq<Question>, path: seq<int>, current: nat,
                                             progress: int, isComplete: bool, next: nat)
    requires ValidSession(questions, path, current, progress, isComplete)
    requires next < |questions|
    ensures ValidSession(questions, ForwardPath(path, questions, next), next,
                         CalculateProgress(next, |questions|), isComplete)
    ensures ValidSession(questions, path, current, 100, true)
  {
    ForwardKeepsPathInvariant(path, questions, next);
    ProgressInRange(next, |questions|);
  }

  /** In a consistent session the backward step always follows the visit
      path: the fallback to `current - 1` is never taken. */
  lemma {:induction false} BackwardFollowsPathWhenValid(questions: seq<Question>, path: seq<int>, current: nat,
                                                        progress: int, isComplete: bool)
    requires ValidSession(questions, path, current, progress, isComplete)
    requires current > 0
    ensures var p := LastIndexOf(path, questions[current].id);
            var r := PreviousQuestionIndex(current, path, questions);
            && p > 0
            && 0 <= r < |questions|
            && questions[r].id == path[p - 1]
  {
    var p := LastIndexOf(path, questions[current].id);
    assert questions[0].id != questions[current].id;
    assert p > 0;
    assert path[p - 1] in QuestionIds(questions);
    var i :| 0 <= i < |questions| && questions[i].id == path[p - 1];
    PreviousFollowsPath(current, path, questions, p);
  }

  /** A backward move keeps the session consistent. */
  lemma {:induction false} PreviousKeepsValid(questions: seq<Question>, path: seq<int>, current: nat,
                                              progress: int, isComplete: bool)
    requires ValidSession(questions, path, current, progress, isComplete)
    ensures var prev := PreviousQuestionIndex(current, path, questions);
            prev != -1 ==> ValidSession(questions, BackwardPath(path, questions[prev].id), prev,
                                        CalculateProgress(prev, |questions|), isComplete)
  {
    if current > 0 {
      var prev := PreviousQuestionIndex(current, path, questions);
      BackwardFollowsPathWhenValid(questions, path, current, progress, isComplete);
      BackwardKeepsPathInvariant(path, questions, questions[prev].id);
      ProgressInRange(prev, |questions|);
    }
  }

  /** A direct jump to a question of the quiz keeps the session consistent. */
  lemma {:induction false} JumpKeepsValid(questions: seq<Question>, path: seq<int>, current: nat,
                                          progress: int, isComplete: bool, index: nat)
    requires ValidSession(questions, path, current, progress, isComplete)
    requires index < |questions|
    ensures ValidSession(questions, JumpPath(path, questions[index].id), index,
                         CalculateProgress(index, |questions|), isComplete)
  {
    JumpKeepsPathInvariant(path, questions, index);
    ProgressInRange(index, |questions|);
  }

  /** Moving forward to a question not yet on the path from the question at
      the end of the path, then back, returns to that question and restores
      the path. */
  lemma {:induction false} BackUndoesForward(path: seq<int>, questions: seq<Question>, current: nat, next: nat)
    requires current < |questions| && 0 < next < |questions|
    requires path != [] && path[|path| - 1] == questions[current].id
    requires questions[next].id !in path
    requires UniqueIds(questions)
    ensures var forward := ForwardPath(path, questions, next);
            && PreviousQuestionIndex(next, forward, questions) == current
            && BackwardPath(forward, questions[current].id) == path
  {
    var forward := ForwardPath(path, questions, next);
    var id := questions[next].id;
    assert forward == path + [id];
    assert LastIndexOf(forward, id) == |path|;
    assert forward[|path| - 1] == questions[current].id;
    var prev := PreviousQuestionIndex(next, forward, questions);
    assert questions[prev].id == questions[current].id;
    assert LastIndexOf(forward, questions[current].id) == |path| - 1;
    assert forward[..|path|] == path;
  }

  /** The error recorded for a rejected policy request: never empty, and the
      payload itself whenever that is a non-empty string. */
  function RejectionMessage(payload: Option<string>): (r: string)
    ensures r != ""
    ensures payload.Some? && payload.value != "" ==> r == payload.value
    ensures payload.None? || payload.value == "" ==> r == "Failed to generate policy."
  {
    if payload.Some? && payload.value != "" then payload.value else "Failed to generate policy."
  }

  /** One quiz run, updated in place by the reducers below. */
  class QuizSession {
    var sessionId: string
    var quizId: string
    var title: string
    var currentQuestionIndex: nat
    var questions: seq<Question>
    var responses: Responses
    var activeQuestionPath: seq<int>
    var progress: int
    var isComplete: bool
    var startTime: Option<int>
    var endTime: Option<int>
    var validationErrors: map<int, seq<string>>
    var generatedPolicyContent: Option<string>
    var isGeneratingPolicy: bool
    var policyGenerationError: Option<string>

    /** The fields as one value. */
    function State(): QuizState
      reads this
    {
      QuizState(sessionId, quizId, title, currentQuestionIndex, questions, responses,
                activeQuestionPath, progress, isComplete, startTime, endTime,
                validationErrors, generatedPolicyContent, isGeneratingPolicy,
                policyGenerationError)
    }

    ghost predicate Valid()
      reads this
    {
      ValidSession(questions, activeQuestionPath, currentQuestionIndex, progress, isComplete)
    }

    /** Sets the fields that identify the quiz being taken. */
    method SetQuizIdentity(newSessionId: string, newQuizId: string, newTitle: string, newQuestions: seq<Question>)
      modifies this`sessionId, this`quizId, this`title, this`questions
      ensures sessionId == newSessionId && quizId == newQuizId && title == newTitle && questions == newQuestions
    {
      sessionId := newSessionId;
      quizId := newQuizId;
      title := newTitle;
      questions := newQuestions;
    }

    /** Sets the fields that record the progress of the run. */
    method SetRun(index: nat, newResponses: Responses, path: seq<int>, newProgress: int, complete: bool,
                  start: Option<int>, end: Option<int>, errors: map<int, seq<string>>)
      modifies this`currentQuestionIndex, this`responses, this`activeQuestionPath, this`progress,
               this`isComplete, this`startTime, this`endTime, this`validationErrors
      ensures currentQuestionIndex == index && responses == newResponses && activeQuestionPath == path
      ensures progress == newProgress && isComplete == complete
      ensures startTime == start && endTime == end && validationErrors == errors
    {
      currentQuestionIndex := index;
      responses := newResponses;
      activeQuestionPath := path;
      progress := newProgress;
      isComplete := complete;
      startTime := start;
      endTime := end;
      validationErrors := errors;
    }

    /** Sets the fields of the policy-generation status. */
    method SetPolicyFields(content: Option<string>, generating: bool, error: Option<string>)
      modifies this`generatedPolicyContent, this`isGeneratingPolicy, this`policyGenerationError
      ensures generatedPolicyContent == content && isGeneratingPolicy == generating
      ensures policyGenerationError == error
    {
      generatedPolicyContent := content;
      isGeneratingPolicy := generating;
      policyGenerationError := error;
    }

    /** A store holding the initial state. */
    constructor()
      ensures State() == InitialState()
      ensures Valid()
    {
      sessionId, quizId, title := "", "", "";
      currentQuestionIndex, questions, responses := 0, [], map[];
      activeQuestionPath, progress, isComplete := [], 0, false;
      startTime, endTime, validationErrors := None, None, map[];
      generatedPolicyContent, isGeneratingPolicy, policyGenerationError := None, false, None;
    }

    /** `startQuiz`: loads a quiz and begins it at the first question. An
        absent or empty title becomes the empty string; an absent or empty
        session id is replaced by `freshId`; `now` is the start time. The
        policy-generation fields are not touched. */
    method StartQuiz(newQuizId: string, newQuestions: seq<Question>, newTitle: Option<string>,
                     newSessionId: Option<string>, freshId: string, now: int)
      modifies this`quizId, this`questions, this`title, this`sessionId, this`currentQuestionIndex,
               this`responses, this`activeQuestionPath, this`progress, this`isComplete,
               this`startTime, this`endTime, this`validationErrors
      ensures quizId == newQuizId && questions == newQuestions && title == newTitle.GetOr("")
      ensures sessionId == if newSessionId.Some? && newSessionId.value != "" then newSessionId.value else freshId
      ensures currentQuestionIndex == 0 && responses == map[] && validationErrors == map[]
      ensures activeQuestionPath == if |newQuestions| > 0 then [newQuestions[0].id] else []
      ensures progress == CalculateProgress(0, |newQuestions|) && !isComplete
      ensures startTime == Some(now) && endTime == None
    {
      var id := if newSessionId.Some? && newSessionId.value != "" then newSessionId.value else freshId;
      SetQuizIdentity(id, newQuizId, newTitle.GetOr(""), newQuestions);
      var path := if |questions| > 0 then [questions[0].id] else [];
      SetRun(0, map[], path, CalculateProgress(0, |questions|), false, Some(now), None, map[]);
    }

    /** `answerQuestion`: records the answer and drops that question's
        validation errors; every other key is unchanged. */
    method AnswerQuestion(questionId: int, response: Answer)
      modifies this`responses, this`validationErrors
      ensures responses == old(responses)[questionId := response]
      ensures validationErrors == old(validationErrors) - {questionId}
      ensures old(Valid()) ==> Valid()
    {
      responses := responses[questionId := response];
      if questionId in validationErrors {
        validationErrors := validationErrors - {questionId};
      }
    }

    /** `navigateToNextQuestion`: the resolver's -1 completes the quiz at
        time `now` with full progress, keeping the index and the path; any
        other result becomes the current index, with its progress and the
        forward path update. */
    method NavigateToNextQuestion(now: int)
      modifies this`isComplete, this`endTime, this`progress, this`currentQuestionIndex, this`activeQuestionPath
      ensures var next := NextQuestionIndex(old(currentQuestionIndex), questions, responses);
              if next == -1 then
                && isComplete && endTime == Some(now) && progress == 100
                && currentQuestionIndex == old(currentQuestionIndex)
                && activeQuestionPath == old(activeQuestionPath)
              else
                && currentQuestionIndex == next
                && progress == CalculateProgress(next, |questions|)
                && activeQuestionPath == ForwardPath(old(activeQuestionPath), questions, next)
                && isComplete == old(isComplete) && endTime == old(endTime)
      ensures old(Valid()) ==> Valid()
    {
      var nextIndex := DetermineNextQuestionIndex(currentQuestionIndex, questions, responses);
      if nextIndex == -1 {
        SetQuizComplete(now);
      } else if 0 <= nextIndex < |questions| {
        MoveForward(nextIndex);
      }
    }

    /** A forward move to `questions[nextIndex]`: index, progress and path. */
    method MoveForward(nextIndex: nat)
      requires nextIndex < |questions|
      modifies this`currentQuestionIndex, this`progress, this`activeQuestionPath
      ensures currentQuestionIndex == nextIndex && progress == CalculateProgress(nextIndex, |questions|)
      ensures activeQuestionPath == ForwardPath(old(activeQuestionPath), questions, nextIndex)
      ensures old(Valid()) ==> Valid()
    {
      ghost var oldPath, oldIndex := activeQuestionPath, currentQuestionIndex;
      currentQuestionIndex := nextIndex;
      progress := CalculateProgress(nextIndex, |questions|);
      RecordForwardMove(nextIndex);
      if old(Valid()) {
        ForwardKeepsValid(questions, oldPath, oldIndex, old(progress), isComplete, nextIndex);
      }
    }

    /** The path update of a forward move to `questions[nextIndex]`. */
    method RecordForwardMove(nextIndex: nat)
      requires nextIndex < |questions|
      modifies this`activeQuestionPath
      ensures activeQuestionPath == ForwardPath(old(activeQuestionPath), questions, nextIndex)
    {
      var nextQuestionId := questions[nextIndex].id;
      var lastVisitedIndex: int := -1;
      if |activeQuestionPath| > 0 {
        var found := FindQuestionIndex(questions, activeQuestionPath[|activeQuestionPath| - 1]);
        if found.Some? {
          lastVisitedIndex := found.value;
        }
      }
      if nextIndex > lastVisitedIndex {
        if nextQuestionId !in activeQuestionPath {
          activeQuestionPath := activeQuestionPath + [nextQuestionId];
        }
      } else {
        var existingPathIndex := IndexOf(activeQuestionPath, nextQuestionId);
        if existingPathIndex != -1 {
          activeQuestionPath := activeQuestionPath[..existingPathIndex + 1];
        } else {
          activeQuestionPath := activeQuestionPath + [nextQuestionId];
        }
      }
    }

    /** `navigateToPreviousQuestion`: nothing changes at the first question;
        otherwise the resolver's result becomes the current index, with its
        progress, and the path is cut after that question's last occurrence.
        Reading the current question's id needs an index inside the quiz. */
    method NavigateToPreviousQuestion()
      requires currentQuestionIndex == 0 || currentQuestionIndex < |questions|
      modifies this`currentQuestionIndex, this`progress, this`activeQuestionPath
      ensures var prev := PreviousQuestionIndex(old(currentQuestionIndex), old(activeQuestionPath), questions);
              if prev == -1 then
                && currentQuestionIndex == old(currentQuestionIndex) && progress == old(progress)
                && activeQuestionPath == old(activeQuestionPath)
              else
                && currentQuestionIndex == prev && progress == CalculateProgress(prev, |questions|)
                && activeQuestionPath == BackwardPath(old(activeQuestionPath), questions[prev].id)
      ensures old(Valid()) ==> Valid()
    {
      ghost var oldPath, oldIndex := activeQuestionPath, currentQuestionIndex;
      var prevIndex := DeterminePreviousQuestionIndex(currentQuestionIndex, activeQuestionPath, questions);
      if prevIndex != -1 {
        currentQuestionIndex := prevIndex;
        progress := CalculateProgress(prevIndex, |questions|);
        var currentQuestionIdInPath := questions[prevIndex].id;
        var indexOfCurrentInPath := LastIndexOf(activeQuestionPath, currentQuestionIdInPath);
        if indexOfCurrentInPath != -1 {
          activeQuestionPath := activeQuestionPath[..indexOfCurrentInPath + 1];
        }
      }
      if old(Valid()) {
        PreviousKeepsValid(questions, oldPath, oldIndex, old(progress), isComplete);
      }
    }

    /** `setCurrentQuestionIndex`: an index outside the quiz is ignored;
        otherwise it becomes current, with its progress and a path ending at
        its question. */
    method SetCurrentQuestionIndex(index: int)
      modifies this`currentQuestionIndex, this`progress, this`activeQuestionPath
      ensures if 0 <= index < |questions| then
                && currentQuestionIndex == index
                && progress == CalculateProgress(index, |questions|)
                && activeQuestionPath == JumpPath(old(activeQuestionPath), questions[index].id)
              else
                && currentQuestionIndex == old(currentQuestionIndex) && progress == old(progress)
                && activeQuestionPath == old(activeQuestionPath)
      ensures old(Valid()) ==> Valid()
    {
      ghost var oldPath, oldIndex := activeQuestionPath, currentQuestionIndex;
      if 0 <= index < |questions| {
        currentQuestionIndex := index;
        progress := CalculateProgress(index, |questions|);
        var currentQuestionId := questions[index].id;
        if currentQuestionId !in activeQuestionPath {
          activeQuestionPath := activeQuestionPath + [currentQuestionId];
        } else {
          var existingPathIndex := IndexOf(activeQuestionPath, currentQuestionId);
          if existingPathIndex != -1 {
            activeQuestionPath := activeQuestionPath[..existingPathIndex + 1];
          }
        }
        if old(Valid()) {
          JumpKeepsValid(questions, oldPath, oldIndex, old(progress), isComplete, index);
        }
      }
    }

    /** `setQuizComplete`: completion at time `now` with full progress. */
    method SetQuizComplete(now: int)
      modifies this`isComplete, this`endTime, this`progress
      ensures isComplete && endTime == Some(now) && progress == 100
      ensures old(Valid()) ==> Valid()
    {
      isComplete := true;
      endTime := Some(now);
      progress := 100;
    }

    /** `loadQuizFromStorage`: a stored state is spread over the current
        one; nothing changes without one. */
    method LoadQuizFromStorage(stored: Option<StoredQuizState>)
      modifies this
      ensures stored.Some? ==> State() == Merge(old(State()), stored.value)
      ensures stored.None? ==> State() == old(State())
    {
      if stored.Some? {
        var s := stored.value;
        var t := if s.title.Some? then s.title.value else title;
        var start := if s.startTime.Some? then s.startTime else startTime;
        var end := if s.endTime.Some? then s.endTime else endTime;
        SetQuizIdentity(s.sessionId, s.quizId, t, s.questions);
        SetRun(s.currentQuestionIndex, s.responses, s.activeQuestionPath, s.progress, s.isComplete,
               start, end, s.validationErrors);
        SetPolicyFields(s.generatedPolicyContent, s.isGeneratingPolicy, s.policyGenerationError);
      }
    }

    /** `updateValidationError`: replaces one question's error list. */
    method UpdateValidationError(questionId: int, errors: seq<string>)
      modifies this`validationErrors
      ensures validationErrors == old(validationErrors)[questionId := errors]
    {
      validationErrors := validationErrors[questionId := errors];
    }

    /** `clearValidationErrors`: removes one question's error list, if any. */
    method ClearValidationErrors(questionId: int)
      modifies this`validationErrors
      ensures validationErrors == old(validationErrors) - {questionId}
    {
      if questionId in validationErrors {
        validationErrors := validationErrors - {questionId};
      }
    }

    /** `resetQuiz`: back to the initial state. */
    method ResetQuiz()
      modifies this
      ensures State() == InitialState()
    {
      SetQuizIdentity("", "", "", []);
      SetRun(0, map[], [], 0, false, None, None, map[]);
      SetPolicyFields(None, false, None);
    }

    /** `updateActiveQuestionPath`: replaces the path wholesale. */
    method UpdateActiveQuestionPath(path: seq<int>)
      modifies this`activeQuestionPath
      ensures activeQuestionPath == path
    {
      activeQuestionPath := path;
    }

    /** `setGeneratedPolicyContent`: stores the content and clears any error. */
    method SetGeneratedPolicyContent(content: Option<string>)
      modifies this`generatedPolicyContent, this`policyGenerationError
      ensures generatedPolicyContent == content && policyGenerationError == None
    {
      generatedPolicyContent := content;
      policyGenerationError := None;
    }

    /** `setPolicyGenerationError`. */
    method SetPolicyGenerationError(error: Option<string>)
      modifies this`policyGenerationError
      ensures policyGenerationError == error
    {
      policyGenerationError := error;
    }

    /** `setPolicyGenerationStatus`. */
    method SetPolicyGenerationStatus(generating: bool)
      modifies this`isGeneratingPolicy
      ensures isGeneratingPolicy == generating
    {
      isGeneratingPolicy := generating;
    }

    /** The policy request has been sent: generating, with no error. */
    method GeneratePolicyPending()
      modifies this`isGeneratingPolicy, this`policyGenerationError
      ensures isGeneratingPolicy && policyGenerationError == None
    {
      isGeneratingPolicy := true;
      policyGenerationError := None;
    }

    /** The policy request succeeded with `content`; an earlier error stays. */
    method GeneratePolicyFulfilled(content: Option<string>)
      modifies this`isGeneratingPolicy, this`generatedPolicyContent
      ensures !isGeneratingPolicy && generatedPolicyContent == content
    {
      isGeneratingPolicy := false;
      generatedPolicyContent := content;
    }

    /** The policy request failed; the error is the rejection payload, or the
        default message when the payload is absent or empty. */
    method GeneratePolicyRejected(payload: Option<string>)
      modifies this`isGeneratingPolicy, this`policyGenerationError
      ensures !isGeneratingPolicy && policyGenerationError == Some(RejectionMessage(payload))
    {
      isGeneratingPolicy := false;
      policyGenerationError := Some(RejectionMessage(payload));
    }
  }
}
