/** The quiz data model: questions with their validation and conditional
    rules, the answer values a user can give, and the snapshot of a quiz
    session's state. */
module QuizTypes {
  import opened Wrappers

  /** The eight question kinds. */
  datatype QuestionType =
    | MultipleChoice | Checkbox | TextInput | TextArea
    | FileUpload | Rating | DateInput | NumberInput

  /** The eight kinds of validation rule; only `Required` is ever evaluated. */
  datatype ValidationKind =
    | Required | MinLength | MaxLength | Pattern
    | MinValue | MaxValue | FileType | MaxFileSize

  /** A validation rule always carries the message shown when it fails. */
  datatype ValidationRule = ValidationRule(kind: ValidationKind, message: string)

  /** One selected value of a multi-valued (checkbox) answer. */
  datatype Choice = ChoiceText(text: string) | ChoiceNumber(number: int)

  /** An answer, or a comparison value of a condition. `Undefined` stands for
      a missing answer as well as an explicitly undefined one; `FileHandle`
      is an uploaded file, equal only to itself. */
  datatype Answer =
    | Undefined
    | Null
    | Text(text: string)
    | Number(number: int)
    | Choices(items: seq<Choice>)
    | FileHandle(handle: nat)

  /** The seven comparison operators, plus any other operator name a quiz
      definition might carry at run time. */
  datatype Operator =
    | Equals | NotEquals | Contains | GreaterThan | LessThan | Answered | NotAnswered
    | Unrecognized(name: string)

  /** A condition on the answer to question `questionId`; an absent
      comparison value is `Undefined`. */
  datatype Condition = Condition(questionId: int, operator: Operator, value: Answer)

  datatype Action = Show | Hide | SkipTo

  /** A conditional rule: when ALL its conditions hold, its action applies. */
  datatype ConditionalLogic =
    ConditionalLogic(action: Action, targetQuestionId: Option<int>, conditions: seq<Condition>)

  datatype QuestionOption = QuestionOption(id: Choice, text: string, value: Choice)

  /** A question. Absent rule lists are empty lists: every use of them in the
      source treats the two alike. */
  datatype Question = Question(
    id: int,
    kind: QuestionType,
    text: string,
    options: seq<QuestionOption>,
    min: Option<int>,
    max: Option<int>,
    step: Option<int>,
    validationRules: seq<ValidationRule>,
    conditionalLogic: seq<ConditionalLogic>)

  /** Answers keyed by question id. */
  type Responses = map<int, Answer>

  /** `responses[id]`: a missing key reads as `Undefined`. */
  function ResponseTo(responses: Responses, id: int): Answer {
    if id in responses then responses[id] else Undefined
  }

  /** Question ids are unique within a quiz. */
  predicate UniqueIds(questions: seq<Question>) {
    forall i, j :: 0 <= i < j < |questions| ==> questions[i].id != questions[j].id
  }

  /** The ids of a question list. */
  function QuestionIds(questions: seq<Question>): (ids: set<int>)
    ensures forall i :: 0 <= i < |questions| ==> questions[i].id in ids
    ensures forall id :: id in ids ==> exists i :: 0 <= i < |questions| && questions[i].id == id
  {
    set i | 0 <= i < |questions| :: questions[i].id
  }

  /** A snapshot of the whole quiz session state. */
  datatype QuizState = QuizState(
    sessionId: string,
    quizId: string,
    title: string,
    currentQuestionIndex: nat,
    questions: seq<Question>,
    responses: Responses,
    activeQuestionPath: seq<int>,
    progress: int,
    isComplete: bool,
    startTime: Option<int>,
    endTime: Option<int>,
    validationErrors: map<int, seq<string>>,
    generatedPolicyContent: Option<string>,
    isGeneratingPolicy: bool,
    policyGenerationError: Option<string>)

  /** A quiz state as read back from storage. The keys the state type
      declares optional may be missing: `None` for `title`, `startTime` or
      `endTime` means the key is absent from the stored object. */
  datatype StoredQuizState = StoredQuizState(
    sessionId: string,
    quizId: string,
    title: Option<string>,
    currentQuestionIndex: nat,
    questions: seq<Question>,
    responses: Responses,
    activeQuestionPath: seq<int>,
    progress: int,
    isComplete: bool,
    startTime: Option<int>,
    endTime: Option<int>,
    validationErrors: map<int, seq<string>>,
    generatedPolicyContent: Option<string>,
    isGeneratingPolicy: bool,
    policyGenerationError: Option<string>)
}
