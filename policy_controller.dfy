/** `PolicyController.generatePolicy`: the request check on `quizResponses`
    and the classification of what the generation service produced. */
module PolicyController {
  import opened Wrappers
  import opened Strings
  import opened JsonValue
  import opened HttpReply
  import opened OpenAIService

  const InvalidResponsesMessage := "Invalid or empty quizResponses provided."
  const NotConfiguredMessage := "Policy generation service not configured."
  const OpenAIFailedMessage := "Failed to generate policy content from OpenAI."
  const NoContentMessage := "Failed to generate policy content, no content returned."
  const InternalErrorMessage := "Internal server error while generating policy."
  const KeyNotConfiguredMarker := "OpenAI API key not configured"
  const ErrorPrefix := "Error:"
  const QuizResponsesKey := "quizResponses"
  const PolicyContentKey := "policyContent"
  const ErrorKey := "error"

  /** What the awaited call to `generatePolicyContent` did: it returned a
      string or `null`, or it threw an error with a message. */
  datatype ServiceOutcome = Returned(content: Option<string>) | Threw(message: string)

  /** `req.body.quizResponses`: absent unless the body is an object with
      that member. */
  function QuizResponses(body: Json): (r: Option<Json>)
    ensures r.Some? ==> body.JObj? && (QuizResponsesKey, r.value) in body.fields
  {
    if body.JObj? then GetSpec(body.fields, QuizResponsesKey); Get(body.fields, QuizResponsesKey) else None
  }

  /** `Object.keys(v).length` for an object or an array. */
  function OwnKeyCount(v: Json): nat {
    match v
    case JObj(fields) => |fields|
    case JArr(items) => |items|
    case _ => 0
  }

  /** The request check: the answers must be present, truthy, of type
      `object` and have at least one own key. */
  predicate AcceptableResponses(qr: Option<Json>) {
    && qr.Some?
    && Truthy(qr.value)
    && (qr.value.JObj? || qr.value.JArr?)
    && OwnKeyCount(qr.value) != 0
  }

  /** The answers as the service enumerates them: an object's members, or
      an array's elements under their index keys. */
  function ResponseEntries(v: Json): (r: seq<Entry>)
    requires v.JObj? || v.JArr?
    ensures |r| == OwnKeyCount(v)
  {
    if v.JObj? then v.fields
    else seq(|v.items|, i requires 0 <= i < |v.items| => (IntToString(i), v.items[i]))
  }

  /** The reply for what the service produced. */
  function Classify(outcome: ServiceOutcome): (r: Reply)
    ensures r.status == 200 || r.status == 500
    ensures r.status == 200 <==>
              outcome.Returned? && outcome.content.Some? && outcome.content.value != ""
              && !(ErrorPrefix <= outcome.content.value)
    ensures r.status == 200 ==> r.body == Single(PolicyContentKey, outcome.content.value)
  {
    match outcome
    case Threw(m) => Reply(500, WithDetails(ErrorKey, InternalErrorMessage, m))
    case Returned(c) =>
      if c.Some? && c.value != "" && ErrorPrefix <= c.value then
        if Contains(c.value, KeyNotConfiguredMarker) then
          Reply(500, WithDetails(ErrorKey, NotConfiguredMessage, c.value))
        else
          Reply(500, WithDetails(ErrorKey, OpenAIFailedMessage, c.value))
      else if c.None? || c.value == "" then
        Reply(500, Single(ErrorKey, NoContentMessage))
      else
        Reply(200, Single(PolicyContentKey, c.value))
  }

  /** `generatePolicy`: 400 for unusable answers, before the service is
      consulted; otherwise the classification of the service's outcome. */
  function GeneratePolicy(body: Json, outcome: ServiceOutcome): (r: Reply)
    ensures r.status == 400 <==> !AcceptableResponses(QuizResponses(body))
    ensures r.status == 400 ==> r.body == Single(ErrorKey, InvalidResponsesMessage)
    ensures r.status != 400 ==> r == Classify(outcome)
  {
    if !AcceptableResponses(QuizResponses(body)) then Reply(400, Single(ErrorKey, InvalidResponsesMessage))
    else Classify(outcome)
  }

  /** The two 500 replies for text that starts with "Error:" are told apart
      by whether it mentions the missing key; text returned without that
      prefix is passed through unchanged, and a thrown error is reported
      with its message. */
  lemma ErrorTextReplies(c: string, m: string)
    ensures ErrorPrefix <= c && Contains(c, KeyNotConfiguredMarker) ==>
              Classify(Returned(Some(c))) == Reply(500, WithDetails(ErrorKey, NotConfiguredMessage, c))
    ensures ErrorPrefix <= c && !Contains(c, KeyNotConfiguredMarker) ==>
              Classify(Returned(Some(c))) == Reply(500, WithDetails(ErrorKey, OpenAIFailedMessage, c))
    ensures Classify(Returned(None)) == Classify(Returned(Some(""))) == Reply(500, Single(ErrorKey, NoContentMessage))
    ensures Classify(Threw(m)) == Reply(500, WithDetails(ErrorKey, InternalErrorMessage, m))
  {
  }

  /** The fallback document never starts with "Error:". */
  lemma FallbackIsNotErrorText(entries: seq<Entry>, details: Option<string>)
    ensures !(ErrorPrefix <= FallbackContent(entries, details))
    ensures FallbackContent(entries, details) != ""
  {
    var c := FallbackContent(entries, details);
    assert FallbackHeading <= c;
    assert c[0] == FallbackHeading[0] == '#';
  }

  /** Text that is neither empty nor "Error:"-prefixed is answered 200. */
  lemma PlainTextIsServed(body: Json, c: string)
    requires AcceptableResponses(QuizResponses(body))
    requires c != "" && !(ErrorPrefix <= c)
    ensures GeneratePolicy(body, Returned(Some(c))) == Reply(200, Single(PolicyContentKey, c))
  {
  }

  /** Together with the real service the controller answers 200 unless the
      completion endpoint itself produced valid text starting with
      "Error:": the service reports every failure through the fallback
      document, never through an "Error:" text. */
  lemma {:induction false} WithGenerationService(body: Json, apiKey: string, lookup: CacheLookup,
                                                 completion: Completion, storeReady: bool)
    requires AcceptableResponses(QuizResponses(body))
    ensures var entries := ResponseEntries(QuizResponses(body).value);
            var c := GeneratePolicyContent(entries, apiKey, lookup, completion, storeReady).content;
            GeneratePolicy(body, Returned(Some(c))).status == 200 || (ValidContent(Some(c)) && ErrorPrefix <= c)
  {
    var entries := ResponseEntries(QuizResponses(body).value);
    var c := GeneratePolicyContent(entries, apiKey, lookup, completion, storeReady).content;
    GenerationIsValidOrFallback(entries, apiKey, lookup, completion, storeReady);
    if !ValidContent(Some(c)) {
      var d :| d != "" && c == FallbackContent(entries, Some(d));
      FallbackIsNotErrorText(entries, Some(d));
      PlainTextIsServed(body, c);
    }
  }

  /** A missing API key is never answered with the "not configured" error:
      the service returns the fallback document, which is served with
      status 200. */
  lemma {:induction false} MissingKeyServesFallback(body: Json, lookup: CacheLookup, completion: Completion, storeReady: bool)
    requires AcceptableResponses(QuizResponses(body))
    ensures var entries := ResponseEntries(QuizResponses(body).value);
            var c := GeneratePolicyContent(entries, "", lookup, completion, storeReady).content;
            GeneratePolicy(body, Returned(Some(c)))
              == Reply(200, Single(PolicyContentKey, FallbackContent(entries, Some(NotConfiguredDetails))))
  {
    var entries := ResponseEntries(QuizResponses(body).value);
    FallbackIsServed(body, entries, Some(NotConfiguredDetails));
  }

  /** Every fallback document is served with status 200. */
  lemma {:induction false} FallbackIsServed(body: Json, entries: seq<Entry>, details: Option<string>)
    requires AcceptableResponses(QuizResponses(body))
    ensures GeneratePolicy(body, Returned(Some(FallbackContent(entries, details))))
              == Reply(200, Single(PolicyContentKey, FallbackContent(entries, details)))
  {
    FallbackIsNotErrorText(entries, details);
    PlainTextIsServed(body, FallbackContent(entries, details));
  }
}
