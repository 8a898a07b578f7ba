/** Condition evaluation and navigation resolution for the conditional quiz:
    which question comes after the current one (skip and hide rules applied),
    and which one comes before it (read back from the visit path). */
module QuizNavigation {
  import opened Wrappers
  import Strings
  import opened QuizTypes

  // ---------------------------------------------------------------------------
  // Searching sequences
  // ---------------------------------------------------------------------------

  /** `questions.findIndex(q => q.id === id)`: the first question with that id. */
  function FindQuestionIndex(questions: seq<Question>, id: int): (r: Option<nat>)
    ensures r.Some? ==> r.value < |questions| && questions[r.value].id == id
    ensures r.Some? ==> forall j :: 0 <= j < r.value ==> questions[j].id != id
    ensures r.None? <==> forall j :: 0 <= j < |questions| ==> questions[j].id != id
  {
    if questions == [] then None
    else if questions[0].id == id then Some(0)
    else
      match FindQuestionIndex(questions[1..], id)
      case None => None
      case Some(k) => Some(k + 1)
  }

  /** `path.indexOf(x)`: the first position of `x`, or -1. */
  function IndexOf(path: seq<int>, x: int): (r: int)
    ensures r == -1 <==> x !in path
    ensures r != -1 ==> 0 <= r < |path| && path[r] == x
    ensures r != -1 ==> forall j :: 0 <= j < r ==> path[j] != x
  {
    if path == [] then -1
    else if path[0] == x then 0
    else
      var k := IndexOf(path[1..], x);
      if k == -1 then -1 else k + 1
  }

  /** `path.lastIndexOf(x)`: the last position of `x`, or -1. */
  function LastIndexOf(path: seq<int>, x: int): (r: int)
    ensures r == -1 <==> x !in path
    ensures r != -1 ==> 0 <= r < |path| && path[r] == x
    ensures r != -1 ==> forall j :: r < j < |path| ==> path[j] != x
  {
    if path == [] then -1
    else if path[|path| - 1] == x then |path| - 1
    else LastIndexOf(path[..|path| - 1], x)
  }

  // ---------------------------------------------------------------------------
  // Condition evaluation
  // ---------------------------------------------------------------------------

  /** `items.includes(v)` for an array of selected values. */
  predicate Includes(items: seq<Choice>, v: Answer) {
    match v
    case Text(s) => ChoiceText(s) in items
    case Number(n) => ChoiceNumber(n) in items
    case _ => false
  }

  /** The `equals` test: an array answer against an array value needs the same
      length and every answered element among the value's elements; against any
      other value it is membership; any other answer is compared strictly. */
  predicate EqualsHolds(answer: Answer, value: Answer) {
    if answer.Choices? then
      if value.Choices? then
        |answer.items| == |value.items| && forall c :: c in answer.items ==> c in value.items
      else Includes(answer.items, value)
    else answer == value
  }

  /** The `notEquals` test, as the source spells it out separately. */
  predicate NotEqualsHolds(answer: Answer, value: Answer) {
    if answer.Choices? then
      if value.Choices? then
        |answer.items| != |value.items| || !(forall c :: c in answer.items ==> c in value.items)
      else !Includes(answer.items, value)
    else answer != value
  }

  /** The `contains` test: substring for two strings, membership for an array
      answer and a defined value, false otherwise. */
  predicate ContainsHolds(answer: Answer, value: Answer) {
    if answer.Text? && value.Text? then Strings.Contains(answer.text, value.text)
    else if answer.Choices? && value != Undefined then Includes(answer.items, value)
    else false
  }

  /** An answer counts as given unless it is undefined, null or the empty string. */
  predicate IsAnswered(answer: Answer) {
    answer != Undefined && answer != Null && answer != Text("")
  }

  /** `evaluateCondition`: decides one condition against the answers. */
  predicate EvaluateCondition(c: Condition, responses: Responses) {
    var answer := ResponseTo(responses, c.questionId);
    match c.operator
    case Equals => EqualsHolds(answer, c.value)
    case NotEquals => NotEqualsHolds(answer, c.value)
    case Contains => ContainsHolds(answer, c.value)
    case GreaterThan => answer.Number? && c.value.Number? && answer.number > c.value.number
    case LessThan => answer.Number? && c.value.Number? && answer.number < c.value.number
    case Answered => IsAnswered(answer)
    case NotAnswered => answer == Undefined || answer == Null || answer == Text("")
    case Unrecognized(_) => false
  }

  /** `evaluateConditionalLogic`: `conditions.every(evaluateCondition)`. */
  function AllConditionsHold(conditions: seq<Condition>, responses: Responses): (r: bool)
    ensures r <==> forall k :: 0 <= k < |conditions| ==> EvaluateCondition(conditions[k], responses)
  {
    if conditions == [] then true
    else EvaluateCondition(conditions[0], responses) && AllConditionsHold(conditions[1..], responses)
  }

  /** A rule's conditions combined with AND. */
  function EvaluateConditionalLogic(logic: ConditionalLogic, responses: Responses): (r: bool)
    ensures r <==> forall k :: 0 <= k < |logic.conditions| ==> EvaluateCondition(logic.conditions[k], responses)
  {
    AllConditionsHold(logic.conditions, responses)
  }

  /** For every shape of answer and value, `notEquals` is exactly the negation of `equals`. */
  lemma NotEqualsIsNegation(c: Condition, responses: Responses)
    requires c.operator == NotEquals
    ensures EvaluateCondition(c, responses) == !EvaluateCondition(c.(operator := Equals), responses)
  {
  }

  /** `notAnswered` is exactly the complement of `answered`. */
  lemma NotAnsweredIsComplement(c: Condition, responses: Responses)
    requires c.operator == NotAnswered
    ensures EvaluateCondition(c, responses) == !EvaluateCondition(c.(operator := Answered), responses)
  {
  }

  /** `equals` on two arrays is not multiset equality: a repeated answer
      element matches a value array holding a different second element. */
  lemma EqualsIsNotMultisetEquality()
    ensures var a := ChoiceText("a");
            var b := ChoiceText("b");
            EqualsHolds(Choices([a, a]), Choices([a, b])) && multiset([a, a]) != multiset([a, b])
  {
    var a, b := ChoiceText("a"), ChoiceText("b");
    assert b !in multiset([a, a]);
    assert b in multiset([a, b]);
  }

  // ---------------------------------------------------------------------------
  // Forward navigation
  // ---------------------------------------------------------------------------

  /** Where a single rule sends the quiz: a `skipTo` rule with a target id,
      whose conditions hold and whose target id exists. */
  function SkipDestination(logic: ConditionalLogic, questions: seq<Question>, responses: Responses): (r: Option<nat>)
    ensures r.Some? ==> r.value < |questions|
  {
    if logic.action == SkipTo && logic.targetQuestionId.Some? && EvaluateConditionalLogic(logic, responses)
    then FindQuestionIndex(questions, logic.targetQuestionId.value)
    else None
  }

  /** The position of the first rule (in declaration order) that sends the
      quiz somewhere, or `|rules|` when none does. */
  function FirstSkipPosition(rules: seq<ConditionalLogic>, questions: seq<Question>, responses: Responses): (k: nat)
    ensures k <= |rules|
    ensures k < |rules| ==> SkipDestination(rules[k], questions, responses).Some?
    ensures forall j :: 0 <= j < k ==> SkipDestination(rules[j], questions, responses).None?
  {
    if rules == [] then 0
    else if SkipDestination(rules[0], questions, responses).Some? then 0
    else 1 + FirstSkipPosition(rules[1..], questions, responses)
  }

  /** Where the first rule that sends the quiz somewhere sends it. */
  function FirstSkip(rules: seq<ConditionalLogic>, questions: seq<Question>, responses: Responses): (r: Option<nat>)
    ensures r.Some? ==> r.value < |questions|
    ensures r.None? <==> forall k :: 0 <= k < |rules| ==> SkipDestination(rules[k], questions, responses).None?
  {
    var k := FirstSkipPosition(rules, questions, responses);
    if k < |rules| then SkipDestination(rules[k], questions, responses) else None
  }

  /** A question is hidden when one of its `hide` rules holds (the rule's
      target id plays no part). */
  predicate IsHidden(q: Question, responses: Responses) {
    exists k :: 0 <= k < |q.conditionalLogic|
      && q.conditionalLogic[k].action == Hide
      && EvaluateConditionalLogic(q.conditionalLogic[k], responses)
  }

  /** The first question at or after `from` that is not hidden, or -1. */
  function FirstVisible(questions: seq<Question>, from: nat, responses: Responses): (r: int)
    ensures r == -1 || from <= r < |questions|
    ensures r == -1 <==> forall j :: from <= j < |questions| ==> IsHidden(questions[j], responses)
    ensures r != -1 ==> !IsHidden(questions[r], responses)
    ensures r != -1 ==> forall j :: from <= j < r ==> IsHidden(questions[j], responses)
    decreases |questions| - from
  {
    if from >= |questions| then -1
    else if !IsHidden(questions[from], responses) then from
    else FirstVisible(questions, from + 1, responses)
  }

  /** `determineNextQuestionIndex`: -1 (the quiz is over) from the last
      question onwards; otherwise the first applicable skip, otherwise the
      next question that is not hidden, or -1 when all the rest are hidden. */
  function NextQuestionIndex(current: nat, questions: seq<Question>, responses: Responses): (r: int)
    ensures r == -1 || 0 <= r < |questions|
  {
    if current >= |questions| - 1 then -1
    else
      match FirstSkip(questions[current].conditionalLogic, questions, responses)
      case Some(target) => target
      case None => FirstVisible(questions, current + 1, responses)
  }

  /** The resolver's loops: rules of the current question scanned for a skip,
      then questions scanned forward for one that is not hidden. */
  method DetermineNextQuestionIndex(current: nat, questions: seq<Question>, responses: Responses) returns (r: int)
    ensures r == NextQuestionIndex(current, questions, responses)
  {
    if current >= |questions| - 1 {
      return -1;
    }
    var rules := questions[current].conditionalLogic;
    var k := 0;
    while k < |rules|
      invariant 0 <= k <= |rules|
      invariant forall j :: 0 <= j < k ==> SkipDestination(rules[j], questions, responses).None?
    {
      var logic := rules[k];
      if logic.action == SkipTo && logic.targetQuestionId.Some? && EvaluateConditionalLogic(logic, responses) {
        var targetIndex := FindQuestionIndex(questions, logic.targetQuestionId.value);
        if targetIndex.Some? {
          return targetIndex.value;
        }
      }
      k := k + 1;
    }
    var nextIndex := current + 1;
    while nextIndex < |questions|
      invariant current + 1 <= nextIndex <= |questions|
      invariant forall j :: current + 1 <= j < nextIndex ==> IsHidden(questions[j], responses)
    {
      var candidate := questions[nextIndex].conditionalLogic;
      var isHidden := false;
      var j := 0;
      while j < |candidate|
        invariant 0 <= j <= |candidate|
        invariant !isHidden
        invariant forall i :: 0 <= i < j ==>
                    !(candidate[i].action == Hide && EvaluateConditionalLogic(candidate[i], responses))
      {
        if candidate[j].action == Hide && EvaluateConditionalLogic(candidate[j], responses) {
          isHidden := true;
          break;
        }
        j := j + 1;
      }
      if !isHidden {
        return nextIndex;
      }
      nextIndex := nextIndex + 1;
    }
    return -1;
  }

  /** The forward step ends the quiz from the last question on, including on
      an empty question list. */
  lemma NextAtEndIsEnd(current: nat, questions: seq<Question>, responses: Responses)
    requires current + 1 >= |questions|
    ensures NextQuestionIndex(current, questions, responses) == -1
  {
  }

  /** The first applicable skip rule decides, whichever later rules hold. */
  lemma NextFollowsFirstSkip(current: nat, questions: seq<Question>, responses: Responses, k: nat)
    requires current + 1 < |questions|
    requires k < |questions[current].conditionalLogic|
    requires SkipDestination(questions[current].conditionalLogic[k], questions, responses).Some?
    requires forall j :: 0 <= j < k ==>
               SkipDestination(questions[current].conditionalLogic[j], questions, responses).None?
    ensures NextQuestionIndex(current, questions, responses)
            == SkipDestination(questions[current].conditionalLogic[k], questions, responses).value
  {
  }

  /** Without an applicable skip the forward step lands on the nearest later
      question that is not hidden, or ends the quiz when every later one is. */
  lemma NextWithoutSkip(current: nat, questions: seq<Question>, responses: Responses)
    requires current + 1 < |questions|
    requires forall k :: 0 <= k < |questions[current].conditionalLogic| ==>
               SkipDestination(questions[current].conditionalLogic[k], questions, responses).None?
    ensures var r := NextQuestionIndex(current, questions, responses);
            && (r == -1 <==> forall j :: current < j < |questions| ==> IsHidden(questions[j], responses))
            && (r != -1 ==> current < r && !IsHidden(questions[r], responses)
                            && forall j :: current < j < r ==> IsHidden(questions[j], responses))
  {
  }

  /** In a quiz without any conditional logic the forward step is `current + 1`
      until the last question. */
  lemma NextIsLinearWithoutLogic(current: nat, questions: seq<Question>, responses: Responses)
    requires forall i :: 0 <= i < |questions| ==> questions[i].conditionalLogic == []
    requires current + 1 < |questions|
    ensures NextQuestionIndex(current, questions, responses) == current + 1
  {
    assert !IsHidden(questions[current + 1], responses);
  }

  // ---------------------------------------------------------------------------
  // Backward navigation
  // ---------------------------------------------------------------------------

  /** `determinePreviousQuestionIndex`: -1 at the first question; otherwise the
      question before the current id's last occurrence in the visit path, when
      there is one and it exists in the quiz; otherwise `current - 1`, because
      the fallback scan never marks a question hidden. */
  function PreviousQuestionIndex(current: nat, path: seq<int>, questions: seq<Question>): (r: int)
    requires current == 0 || current < |questions|
    ensures r == -1 <==> current == 0
    ensures r != -1 ==> 0 <= r < |questions|
  {
    if current == 0 then -1
    else
      var p := LastIndexOf(path, questions[current].id);
      if p > 0 && FindQuestionIndex(questions, path[p - 1]).Some?
      then FindQuestionIndex(questions, path[p - 1]).value
      else current - 1
  }

  /** The resolver's backward step, with its fallback scan. */
  method DeterminePreviousQuestionIndex(current: nat, path: seq<int>, questions: seq<Question>) returns (r: int)
    requires current == 0 || current < |questions|
    ensures r == PreviousQuestionIndex(current, path, questions)
  {
    if current == 0 {
      return -1;
    }
    var currentId := questions[current].id;
    var indexInPath := LastIndexOf(path, currentId);
    if indexInPath > 0 {
      var previousId := path[indexInPath - 1];
      var previousIndex := FindQuestionIndex(questions, previousId);
      if previousIndex.Some? {
        return previousIndex.value;
      }
    }
    // The fallback scan inspects each earlier question's hide rules against an
    // empty answer set but never records the outcome, so it always stops at
    // the first question it looks at: its loop body runs once and returns.
    return current - 1;
  }

  /** The backward step follows the visit path whenever the current id
      appears after the first path position and its predecessor is a quiz
      question. */
  lemma PreviousFollowsPath(current: nat, path: seq<int>, questions: seq<Question>, p: nat)
    requires 0 < current < |questions|
    requires 0 < p < |path| && path[p] == questions[current].id
    requires forall j :: p < j < |path| ==> path[j] != questions[current].id
    requires exists i :: 0 <= i < |questions| && questions[i].id == path[p - 1]
    ensures var r := PreviousQuestionIndex(current, path, questions);
            0 <= r < |questions| && questions[r].id == path[p - 1]
  {
    assert LastIndexOf(path, questions[current].id) == p;
  }

  /** When the path gives no usable predecessor (the current id does not
      appear after the first path position, or the id before its last
      occurrence is not a quiz question) the backward step is exactly
      `current - 1`. */
  lemma PreviousFallsBack(current: nat, path: seq<int>, questions: seq<Question>)
    requires 0 < current < |questions|
    ensures (forall j :: 0 < j < |path| ==> path[j] != questions[current].id) ==>
              PreviousQuestionIndex(current, path, questions) == current - 1
    ensures var p := LastIndexOf(path, questions[current].id);
            p > 0 && (forall i :: 0 <= i < |questions| ==> questions[i].id != path[p - 1]) ==>
              PreviousQuestionIndex(current, path, questions) == current - 1
  {
  }
}
