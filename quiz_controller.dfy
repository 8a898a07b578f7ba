/** The backend's quiz endpoints: a fixed table of quiz definitions and an
    in-memory table of sessions that the handlers create and update in
    place. Clocks and the random session id are parameters. */
module QuizController {
  import opened Wrappers
  import opened JsonValue

  const QuizNotFound := "Quiz not found"
  const SessionNotFound := "Session not found"
  const AlreadyCompleted := "Quiz session already completed"

  /** A question of a backend quiz definition; an option is its id, text
      and value. */
  datatype BackendQuestion = BackendQuestion(
    id: int, kind: string, text: string, options: seq<(string, string, string)>)

  datatype QuizDefinition = QuizDefinition(id: string, title: string, questions: seq<BackendQuestion>)

  /** The one quiz the backend knows. */
  const SampleQuizId := "sample-quiz-1"
  const SampleQuiz := QuizDefinition(SampleQuizId, "Sample Backend Quiz", [
    BackendQuestion(1, "text", "What is your backend name?", []),
    BackendQuestion(2, "multiple-choice", "Favorite backend framework?",
                    [("o1", "Express", "express"), ("o2", "NestJS", "nestjs")])
  ])

  /** A session record. The fields taken from the request body are absent
      when the body lacks them. */
  datatype Session = Session(
    quizId: Option<Json>,
    email: Option<Json>,
    schoolName: Option<Json>,
    responses: map<string, Json>,
    startTime: int,
    currentQuestionIndex: nat,
    isCompleted: bool,
    endTime: Option<int>)

  /** What a handler answers. */
  datatype Response =
    | QuizFound(quiz: QuizDefinition)
    | SessionCreated(sessionId: string, sessionData: Session)
    | SessionFound(session: Session)
    | ResponseSubmitted(questionId: string, response: Json)
    | SessionCompleted(sessionData: Session)
    | Failure(status: int, message: string)

  /** The HTTP status of a response. */
  function Status(r: Response): int {
    match r
    case QuizFound(_) => 200
    case SessionCreated(_, _) => 201
    case SessionFound(_) => 200
    case ResponseSubmitted(_, _) => 200
    case SessionCompleted(_) => 200
    case Failure(status, _) => status
  }

  /** A fresh session: no answers, at the first question, not completed. */
  function NewSession(quizId: Option<Json>, email: Option<Json>, schoolName: Option<Json>, now: int): Session {
    Session(quizId, email, schoolName, map[], now, 0, false, None)
  }

  /** `submitResponse` on the session table: the new table and the reply. */
  function Submit(sessions: map<string, Session>, sessionId: string, questionId: string, response: Json)
    : (map<string, Session>, Response)
  {
    if sessionId !in sessions then (sessions, Failure(404, SessionNotFound))
    else if sessions[sessionId].isCompleted then (sessions, Failure(400, AlreadyCompleted))
    else
      var s := sessions[sessionId];
      (sessions[sessionId := s.(responses := s.responses[questionId := response])],
       ResponseSubmitted(questionId, response))
  }

  /** `completeQuizSession` on the session table. */
  function Complete(sessions: map<string, Session>, sessionId: string, now: int): (map<string, Session>, Response) {
    if sessionId !in sessions then (sessions, Failure(404, SessionNotFound))
    else
      var s := sessions[sessionId].(isCompleted := true, endTime := Some(now));
      (sessions[sessionId := s], SessionCompleted(s))
  }

  class QuizBackend {
    var quizzes: map<string, QuizDefinition>
    var sessions: map<string, Session>

    /** The module's initial state: the sample quiz and no sessions. */
    constructor ()
      ensures quizzes == map[SampleQuizId := SampleQuiz]
      ensures sessions == map[]
    {
      quizzes := map[SampleQuizId := SampleQuiz];
      sessions := map[];
    }

    /** `getQuizDefinition`: 200 with the quiz, or 404. */
    function GetQuizDefinition(quizId: string): (r: Response)
      reads this
      ensures Status(r) == 200 <==> quizId in quizzes
      ensures quizId in quizzes ==> r == QuizFound(quizzes[quizId])
      ensures quizId !in quizzes ==> r == Failure(404, QuizNotFound)
    {
      if quizId in quizzes then QuizFound(quizzes[quizId]) else Failure(404, QuizNotFound)
    }

    /** `createQuizSession`: stores a fresh session under the generated id
        (replacing any session that had the same id) and answers 201. */
    method CreateQuizSession(quizId: Option<Json>, email: Option<Json>, schoolName: Option<Json>,
                             sessionId: string, now: int) returns (r: Response)
      modifies this`sessions
      ensures sessions == old(sessions)[sessionId := NewSession(quizId, email, schoolName, now)]
      ensures r == SessionCreated(sessionId, NewSession(quizId, email, schoolName, now))
    {
      sessions := sessions[sessionId := NewSession(quizId, email, schoolName, now)];
      r := SessionCreated(sessionId, sessions[sessionId]);
    }

    /** `getQuizSession`: 200 with the session, or 404. */
    function GetQuizSession(sessionId: string): (r: Response)
      reads this
      ensures Status(r) == 200 <==> sessionId in sessions
      ensures sessionId in sessions ==> r == SessionFound(sessions[sessionId])
    {
      if sessionId in sessions then SessionFound(sessions[sessionId]) else Failure(404, SessionNotFound)
    }

    /** `submitResponse`. */
    method SubmitResponse(sessionId: string, questionId: string, response: Json) returns (r: Response)
      modifies this`sessions
      ensures (sessions, r) == Submit(old(sessions), sessionId, questionId, response)
    {
      if sessionId !in sessions {
        return Failure(404, SessionNotFound);
      }
      var session := sessions[sessionId];
      if session.isCompleted {
        return Failure(400, AlreadyCompleted);
      }
      sessions := sessions[sessionId := session.(responses := session.responses[questionId := response])];
      r := ResponseSubmitted(questionId, response);
    }

    /** `completeQuizSession`. */
    method CompleteQuizSession(sessionId: string, now: int) returns (r: Response)
      modifies this`sessions
      ensures (sessions, r) == Complete(old(sessions), sessionId, now)
    {
      if sessionId !in sessions {
        return Failure(404, SessionNotFound);
      }
      var session := sessions[sessionId].(isCompleted := true, endTime := Some(now));
      sessions := sessions[sessionId := session];
      r := SessionCompleted(session);
    }
  }

  /** A failed submission changes nothing: 404 for an unknown session, 400
      for a completed one. A successful one sets exactly the one answer and
      leaves every other answer and every other session as it was. */
  lemma SubmitEffect(sessions: map<string, Session>, sessionId: string, questionId: string, response: Json)
    ensures var (after, r) := Submit(sessions, sessionId, questionId, response);
            && (sessionId !in sessions ==> after == sessions && Status(r) == 404)
            && (sessionId in sessions && sessions[sessionId].isCompleted ==> after == sessions && Status(r) == 400)
            && (sessionId in sessions && !sessions[sessionId].isCompleted ==>
                  && Status(r) == 200
                  && after.Keys == sessions.Keys
                  && (forall id :: id in sessions && id != sessionId ==> after[id] == sessions[id])
                  && after[sessionId].responses == sessions[sessionId].responses[questionId := response]
                  && after[sessionId].(responses := sessions[sessionId].responses) == sessions[sessionId])
  {
  }

  /** Completing is final: a completed session refuses every later
      submission and completing again keeps it completed. Nothing but that
      session's completion flag and end time changes. */
  lemma CompleteEffect(sessions: map<string, Session>, sessionId: string, now: int, later: int,
                       questionId: string, response: Json)
    requires sessionId in sessions
    ensures var after := Complete(sessions, sessionId, now).0;
            && after[sessionId].isCompleted
            && after[sessionId].responses == sessions[sessionId].responses
            && after[sessionId].endTime == Some(now)
            && Submit(after, sessionId, questionId, response) == (after, Failure(400, AlreadyCompleted))
            && Complete(after, sessionId, later).0[sessionId].isCompleted
    ensures var after := Complete(sessions, sessionId, now).0;
            && after.Keys == sessions.Keys
            && (forall id :: id in sessions && id != sessionId ==> after[id] == sessions[id])
            && after[sessionId].(isCompleted := sessions[sessionId].isCompleted,
                                 endTime := sessions[sessionId].endTime) == sessions[sessionId]
  {
  }

  /** A new session starts with no answers, at the first question and not
      completed, so it accepts submissions. */
  lemma NewSessionAcceptsAnswers(quizId: Option<Json>, email: Option<Json>, schoolName: Option<Json>,
                                 now: int, sessions: map<string, Session>, sessionId: string,
                                 questionId: string, response: Json)
    ensures var s := NewSession(quizId, email, schoolName, now);
            && s.responses == map[] && s.currentQuestionIndex == 0 && !s.isCompleted
            && Status(Submit(sessions[sessionId := s], sessionId, questionId, response).1) == 200
  {
  }
}
