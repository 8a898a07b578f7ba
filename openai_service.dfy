/** The policy-generation service: the cache key of a set of quiz answers,
    the prompt built from them, the fallback document, the validity check
    applied to generated text, and the decision flow that picks between a
    cached text, a fresh completion and the fallback. The cache store and
    the completion endpoint are oracle inputs. Quiz answers arrive as the
    members of a JSON object, in the object's own enumeration order. */
module OpenAIService {
  import opened Wrappers
  import opened Strings
  import opened JsonValue

  type Entry = (string, Json)

  const CachePrefix := "policy_gen_cache:"
  const MinValidContentLength := 50
  const MaxUserInfoLength := 2000

  /** The six phrases that mark a completion as a refusal or an error. */
  const ErrorPhrases: seq<string> := [
    "i cannot fulfill this request",
    "i am unable to proceed",
    "request could not be completed",
    "an error occurred",
    "unable to generate",
    "content policy violation"
  ]

  // ---------------------------------------------------------------------
  // Cache key
  // ---------------------------------------------------------------------

  /** The default `sort()` order on strings: code-unit lexicographic. */
  predicate StringLess(a: string, b: string) {
    if a == [] then b != []
    else if b == [] then false
    else if a[0] != b[0] then a[0] < b[0]
    else StringLess(a[1..], b[1..])
  }

  lemma {:induction false} StringLessIrreflexive(a: string)
    ensures !StringLess(a, a)
  {
    if a != [] {
      StringLessIrreflexive(a[1..]);
    }
  }

  lemma {:induction false} StringLessAsymmetric(a: string, b: string)
    ensures StringLess(a, b) ==> !StringLess(b, a)
  {
    if a != [] && b != [] && a[0] == b[0] {
      StringLessAsymmetric(a[1..], b[1..]);
    }
  }

  lemma {:induction false} StringLessTotal(a: string, b: string)
    ensures a == b || StringLess(a, b) || StringLess(b, a)
  {
    if a != [] && b != [] && a[0] == b[0] {
      StringLessTotal(a[1..], b[1..]);
      if a[1..] == b[1..] {
        assert a == [a[0]] + a[1..] && b == [b[0]] + b[1..];
      }
    }
  }

  lemma {:induction false} StringLessTransitive(a: string, b: string, c: string)
    requires StringLess(a, b) && StringLess(b, c)
    ensures StringLess(a, c)
  {
    if a != [] && a[0] == b[0] && b[0] == c[0] {
      StringLessTransitive(a[1..], b[1..], c[1..]);
    }
  }

  /** Entries in strictly increasing key order. */
  ghost predicate StrictlySorted(s: seq<Entry>) {
    forall i, j :: 0 <= i < j < |s| ==> StringLess(s[i].0, s[j].0)
  }

  /** Inserts `e` before the first entry with a larger key. */
  function Insert(e: Entry, s: seq<Entry>): (r: seq<Entry>)
    ensures multiset(r) == multiset(s) + multiset{e}
  {
    if s == [] then [e]
    else if StringLess(e.0, s[0].0) then [e] + s
    else
      assert s == [s[0]] + s[1..];
      [s[0]] + Insert(e, s[1..])
  }

  /** `Object.keys(o).sort()` paired with the values: the entries in key order. */
  function SortByKey(s: seq<Entry>): (r: seq<Entry>)
    ensures multiset(r) == multiset(s)
  {
    if s == [] then []
    else
      assert s == [s[0]] + s[1..];
      Insert(s[0], SortByKey(s[1..]))
  }

  lemma {:induction false} InsertKeepsSorted(e: Entry, s: seq<Entry>)
    requires StrictlySorted(s)
    requires forall k :: 0 <= k < |s| ==> s[k].0 != e.0
    ensures StrictlySorted(Insert(e, s))
  {
    if s != [] && !StringLess(e.0, s[0].0) {
      StringLessTotal(e.0, s[0].0);
      InsertKeepsSorted(e, s[1..]);
      var rest := Insert(e, s[1..]);
      forall x | x in rest
        ensures StringLess(s[0].0, x.0)
      {
        assert x in multiset(rest);
        if x != e {
          assert x in multiset(s[1..]);
          var k :| 0 <= k < |s[1..]| && s[1..][k] == x;
          assert s[k + 1] == x;
        }
      }
      var r := [s[0]] + rest;
      forall i, j | 0 <= i < j < |r|
        ensures StringLess(r[i].0, r[j].0)
      {
        if i == 0 {
          assert r[j] == rest[j - 1];
          assert rest[j - 1] in rest;
        } else {
          assert r[i] == rest[i - 1] && r[j] == rest[j - 1];
        }
      }
    } else if s != [] {
      var r := [e] + s;
      forall i, j | 0 <= i < j < |r|
        ensures StringLess(r[i].0, r[j].0)
      {
        if i == 0 && j > 1 {
          StringLessTransitive(e.0, s[0].0, s[j - 1].0);
        }
      }
    }
  }

  /** Sorting entries with distinct keys gives strictly increasing keys. */
  lemma {:induction false} SortByKeySorted(s: seq<Entry>)
    requires DistinctKeys(s)
    ensures StrictlySorted(SortByKey(s))
  {
    if s != [] {
      var tail := s[1..];
      assert DistinctKeys(tail) by {
        forall i, j | 0 <= i < j < |tail|
          ensures tail[i].0 != tail[j].0
        {
          assert tail[i] == s[i + 1] && tail[j] == s[j + 1];
        }
      }
      SortByKeySorted(tail);
      var sorted := SortByKey(tail);
      forall k | 0 <= k < |sorted|
        ensures sorted[k].0 != s[0].0
      {
        assert sorted[k] in multiset(sorted);
        assert sorted[k] in multiset(tail);
        var m :| 0 <= m < |tail| && tail[m] == sorted[k];
        assert s[m + 1] == sorted[k];
      }
      InsertKeepsSorted(s[0], sorted);
    }
  }

  lemma TailMultiset(a: seq<Entry>)
    requires a != []
    ensures multiset(a[1..]) == multiset(a) - multiset{a[0]}
  {
    assert a == [a[0]] + a[1..];
  }

  /** Two strictly sorted lists holding the same entries start alike. */
  lemma SortedHeads(a: seq<Entry>, b: seq<Entry>)
    requires StrictlySorted(a) && StrictlySorted(b)
    requires multiset(a) == multiset(b) && a != []
    ensures b != [] && a[0] == b[0]
  {
    assert a[0] in multiset(b);
    var i :| 0 <= i < |b| && b[i] == a[0];
    assert b[0] in multiset(a);
    var j :| 0 <= j < |a| && a[j] == b[0];
    if i != 0 {
      assert StringLess(b[0].0, a[0].0);
      if j == 0 {
        StringLessIrreflexive(a[0].0);
      } else {
        StringLessAsymmetric(a[0].0, b[0].0);
      }
    }
  }

  /** Two strictly sorted lists holding the same entries are the same list. */
  lemma {:induction false} SortedUnique(a: seq<Entry>, b: seq<Entry>)
    requires StrictlySorted(a) && StrictlySorted(b)
    requires multiset(a) == multiset(b)
    ensures a == b
    decreases |a|
  {
    if a != [] {
      SortedHeads(a, b);
      TailMultiset(a);
      TailMultiset(b);
      SortedUnique(a[1..], b[1..]);
      assert a == [a[0]] + a[1..] && b == [b[0]] + b[1..];
    }
  }

  /** A canonical array-index key: a decimal numeral without leading zeros
      below 2^32 - 1. A JavaScript object enumerates such keys first, in
      numeric order, and its other keys after them in insertion order. */
  predicate IsIndexKey(k: string) {
    && k != []
    && (forall i :: 0 <= i < |k| ==> IsDigit(k[i]))
    && (k[0] == '0' ==> k == "0")
    && DigitsValue(k) < 0xFFFF_FFFF
  }

  function IndexValue(k: string): nat {
    if IsIndexKey(k) then DigitsValue(k) else 0
  }

  /** Inserts `e` among entries kept in increasing numeric key order. */
  function InsertNumeric(e: Entry, s: seq<Entry>): (r: seq<Entry>)
    ensures multiset(r) == multiset(s) + multiset{e}
  {
    if s == [] then [e]
    else if IndexValue(e.0) < IndexValue(s[0].0) then [e] + s
    else
      assert s == [s[0]] + s[1..];
      [s[0]] + InsertNumeric(e, s[1..])
  }

  /** The entries with index keys, in increasing numeric order. */
  function IndexEntries(s: seq<Entry>): (r: seq<Entry>)
    ensures forall k :: 0 <= k < |r| ==> IsIndexKey(r[k].0)
    ensures multiset(r) <= multiset(s)
  {
    if s == [] then []
    else
      assert s == [s[0]] + s[1..];
      var rest := IndexEntries(s[1..]);
      if IsIndexKey(s[0].0) then
        var r := InsertNumeric(s[0], rest);
        assert forall k :: 0 <= k < |r| ==> r[k] in multiset(r);
        r
      else rest
  }

  /** The entries with other keys, in insertion order. */
  function NamedEntries(s: seq<Entry>): (r: seq<Entry>)
    ensures forall k :: 0 <= k < |r| ==> !IsIndexKey(r[k].0)
    ensures multiset(r) <= multiset(s)
  {
    if s == [] then []
    else
      assert s == [s[0]] + s[1..];
      if IsIndexKey(s[0].0) then NamedEntries(s[1..]) else [s[0]] + NamedEntries(s[1..])
  }

  /** The members of an object built by inserting `s` in order, as
      `JSON.stringify` enumerates them. */
  function EnumerationOrder(s: seq<Entry>): seq<Entry> {
    IndexEntries(s) + NamedEntries(s)
  }

  /** `generateCacheKey`: the prefix followed by the JSON of an object built
      from the answers in sorted key order. */
  function CacheKey(entries: seq<Entry>): (r: string)
    ensures CachePrefix <= r
  {
    CachePrefix + Stringify(JObj(EnumerationOrder(SortByKey(entries))))
  }

  /** The loop of `generateCacheKey`: copies the sorted entries into a fresh
      object one by one, then serialises it. */
  method GenerateCacheKey(entries: seq<Entry>) returns (key: string)
    ensures key == CacheKey(entries)
  {
    var sortedEntries := SortByKey(entries);
    var deterministicObject: seq<Entry> := [];
    var i := 0;
    while i < |sortedEntries|
      invariant 0 <= i <= |sortedEntries|
      invariant deterministicObject == sortedEntries[..i]
    {
      deterministicObject := deterministicObject + [sortedEntries[i]];
      i := i + 1;
    }
    assert sortedEntries[..i] == sortedEntries;
    key := CachePrefix + Stringify(JObj(EnumerationOrder(deterministicObject)));
  }

  /** The cache key does not depend on the order in which the answers'
      members were inserted. */
  lemma CacheKeyIgnoresOrder(e1: seq<Entry>, e2: seq<Entry>)
    requires DistinctKeys(e1) && DistinctKeys(e2)
    requires multiset(e1) == multiset(e2)
    ensures CacheKey(e1) == CacheKey(e2)
  {
    SortByKeySorted(e1);
    SortByKeySorted(e2);
    SortedUnique(SortByKey(e1), SortByKey(e2));
  }

  // ---------------------------------------------------------------------
  // Prompt
  // ---------------------------------------------------------------------

  const FullNameLabel := "User Full Name"
  const FavoriteColorLabel := "User Favorite Color"
  const RatingLabel := "Example Quiz Rating (1-5)"
  const QuestionLabel := "Response to Question "
  const NotAnswered := "(Not answered)"
  const TextKey := "text"
  const ValueKey := "value"

  /** The prompt label of an answer's key: three keys have names, every
      other key is labelled by its question. */
  function Label(key: string): (r: string)
    ensures key != "1" && key != "2" && key != "3" ==> r == QuestionLabel + key
  {
    if key == "1" then FullNameLabel
    else if key == "2" then FavoriteColorLabel
    else if key == "3" then RatingLabel
    else QuestionLabel + key
  }

  /** How an answer is printed in the prompt: an object by its `text`,
      else its `value`, else its JSON; null and the empty string as
      "(Not answered)"; anything else as `String` prints it. */
  function NormaliseValue(v: Json): (r: string)
    ensures v == JNull || v == JStr("") ==> r == NotAnswered
    ensures v.JStr? && v.s != "" ==> r == v.s
  {
    match v
    case JObj(fields) =>
      if Get(fields, TextKey).Some? then TemplateString(Get(fields, TextKey).value)
      else if Get(fields, ValueKey).Some? then TemplateString(Get(fields, ValueKey).value)
      else Stringify(v)
    case JArr(_) => Stringify(v)
    case JNull => NotAnswered
    case JStr(s) => if s == "" then NotAnswered else s
    case _ => TemplateString(v)
  }

  const LineStart := "- "
  const LineSeparator := ": "
  const LineEnd := "\n"

  /** One line of the user-information block. */
  function Line(e: Entry): string {
    LineStart + Label(e.0) + LineSeparator + NormaliseValue(e.1) + LineEnd
  }

  /** The lines of all entries, in order. */
  function LineList(entries: seq<Entry>): (r: seq<string>)
    ensures |r| == |entries|
  {
    seq(|entries|, i requires 0 <= i < |entries| => Line(entries[i]))
  }

  const UserInfoHeader := "Key user-provided information:\n"
  const NoUserInfo := "No specific user information provided.\n"

  /** The user-information block before truncation. */
  function UserInfo(entries: seq<Entry>): (r: string)
    ensures entries == [] ==> r == NoUserInfo
  {
    if entries == [] then NoUserInfo else Concat([UserInfoHeader] + LineList(entries))
  }

  /** Over-long user information keeps its first 1997 characters and gets
      "..." appended. */
  function Truncate(info: string): (r: string)
    ensures |r| <= MaxUserInfoLength
    ensures |info| > MaxUserInfoLength ==> |r| == MaxUserInfoLength && r[..1997] == info[..1997]
    ensures |info| > MaxUserInfoLength ==> r[1997..] == "..."
    ensures |info| <= MaxUserInfoLength ==> r == info
  {
    if |info| > MaxUserInfoLength then info[..MaxUserInfoLength - 3] + "..." else info
  }

  const PromptIntro := "Please generate a general company policy document. The document should be professional, clear, and comprehensive.\n\n"
  const PromptOutro := "\nConsider standard sections such as Introduction, Scope, Definitions, Responsibilities, and specific clauses relevant to the user-provided information.\nThe tone should be formal and authoritative.\nEnsure the output is well-formatted Markdown.\n"

  /** The whole prompt. */
  function Prompt(entries: seq<Entry>): (r: string)
    ensures PromptIntro <= r
    ensures |r| <= |PromptIntro| + MaxUserInfoLength + |PromptOutro|
  {
    var info := Truncate(UserInfo(entries));
    PrefixOfAppend(PromptIntro, PromptIntro, info);
    PrefixOfAppend(PromptIntro, PromptIntro + info, PromptOutro);
    PromptIntro + info + PromptOutro
  }

  /** `constructPrompt`: accumulates one line per answer, replaces the block
      when there were none, truncates it and wraps it in the fixed text. */
  method ConstructPrompt(entries: seq<Entry>) returns (prompt: string)
    ensures prompt == Prompt(entries)
  {
    ghost var lines := [UserInfoHeader] + LineList(entries);
    var userInfo := UserInfoHeader;
    ConcatSnoc(lines, 0);
    var hasUserInfo := false;
    var i := 0;
    while i < |entries|
      invariant 0 <= i <= |entries|
      invariant userInfo == Concat(lines[..i + 1])
      invariant hasUserInfo <==> i > 0
    {
      ConcatSnoc(lines, i + 1);
      userInfo := userInfo + Line(entries[i]);
      hasUserInfo := true;
      i := i + 1;
    }
    assert lines[..i + 1] == lines;
    if !hasUserInfo {
      userInfo := NoUserInfo;
    }
    if |userInfo| > MaxUserInfoLength {
      userInfo := userInfo[..MaxUserInfoLength - 3] + "...";
    }
    prompt := PromptIntro + userInfo + PromptOutro;
  }

  /** Every answer contributes its line to the user information, in the
      object's order. */
  lemma EveryAnswerIsListed(entries: seq<Entry>, k: nat)
    requires k < |entries|
    ensures Contains(UserInfo(entries), Line(entries[k]))
  {
    var lines := [UserInfoHeader] + LineList(entries);
    ConcatContains(lines, k + 1);
    ContainsSpec(UserInfo(entries), Line(entries[k]));
  }

  // ---------------------------------------------------------------------
  // Fallback document
  // ---------------------------------------------------------------------

  const KnownCompanyNameKeys: seq<string> := ["companyName", "organizationName", "1"]
  const DefaultCompany := "your company"
  const FallbackHeading := "# Policy Document (Fallback)"

  /** The company name a truthy answer supplies: its `text`, else its
      `value`, else the string itself when not blank; otherwise the default. */
  function CompanyFrom(val: Json): string {
    if val.JObj? && Get(val.fields, TextKey).Some? then TemplateString(Get(val.fields, TextKey).value)
    else if val.JObj? && Get(val.fields, ValueKey).Some? then TemplateString(Get(val.fields, ValueKey).value)
    else if val.JStr? && Trim(val.s) != "" then val.s
    else DefaultCompany
  }

  /** The answer under `key` exists and is truthy. */
  predicate TruthyMember(entries: seq<Entry>, key: string) {
    Get(entries, key).Some? && Truthy(Get(entries, key).value)
  }

  /** The company named by the first of `keys` with a truthy answer. */
  function CompanyIdentifier(entries: seq<Entry>, keys: seq<string>): string {
    if keys == [] then DefaultCompany
    else if TruthyMember(entries, keys[0]) then CompanyFrom(Get(entries, keys[0]).value)
    else CompanyIdentifier(entries, keys[1..])
  }

  /** The first known key with a truthy answer alone decides the company;
      with none, the company is the default. */
  lemma {:induction false} CompanyIdentifierIsFirstTruthy(entries: seq<Entry>, keys: seq<string>, k: nat)
    requires k <= |keys|
    requires forall j :: 0 <= j < k ==> !TruthyMember(entries, keys[j])
    requires k < |keys| ==> TruthyMember(entries, keys[k])
    ensures k < |keys| ==> CompanyIdentifier(entries, keys) == CompanyFrom(Get(entries, keys[k]).value)
    ensures k == |keys| ==> CompanyIdentifier(entries, keys) == DefaultCompany
  {
    if k > 0 {
      assert forall j :: 0 <= j < k - 1 ==> keys[1..][j] == keys[j + 1];
      CompanyIdentifierIsFirstTruthy(entries, keys[1..], k - 1);
    }
  }

  /** The details sentence, or just the paragraph break. */
  function DetailsPart(errorDetails: Option<string>): string {
    if Given(errorDetails) then "(Details: " + errorDetails.value + ")" + "\n\n" else "\n\n"
  }

  const IssueSentence := "\n\nWe encountered an issue generating a customized policy for "
  const AtThisTime := " at this time. "
  const TemplateNotice := "Please find below a generic template. We recommend reviewing this carefully and consulting with a legal professional if necessary.\n\n"
  const IntroductionSection := "## 1. Introduction\n\nThis document outlines the general policies and procedures for "
  const ScopeSection := "## 2. Scope\n\nThese policies apply to all employees, contractors, and stakeholders of "
  const SectionEnd := ".\n\n"
  const Closing := "*(Further generic sections would follow here.)*\n\n**Disclaimer**: This is a fallback template. For a policy tailored to your needs, please try again later or contact support."

  function OpeningRest(company: string): string {
    IssueSentence + company + AtThisTime
  }

  function FallbackBody(company: string): string {
    TemplateNotice + IntroductionSection + company + SectionEnd + ScopeSection + company + SectionEnd + Closing
  }

  /** The fallback document for `company`: it opens with the fallback
      heading and carries the details when they are given. */
  function FallbackText(company: string, errorDetails: Option<string>): (r: string)
    ensures FallbackHeading <= r
    ensures Given(errorDetails) ==> Contains(r, "(Details: " + errorDetails.value + ")")
  {
    var opening := FallbackHeading + OpeningRest(company);
    var details := DetailsPart(errorDetails);
    var body := FallbackBody(company);
    PrefixOfAppend(FallbackHeading, FallbackHeading, OpeningRest(company));
    PrefixOfAppend(FallbackHeading, opening, details);
    PrefixOfAppend(FallbackHeading, opening + details, body);
    assert Given(errorDetails) ==> Contains(opening + details + body, "(Details: " + errorDetails.value + ")") by {
      if Given(errorDetails) {
        var x := "(Details: " + errorDetails.value + ")";
        PrefixOfAppend(x, x, "\n\n");
        ContainsInfix(opening, details, body, x);
      }
    }
    opening + details + body
  }

  /** `getFallbackContent`. */
  function FallbackContent(entries: seq<Entry>, errorDetails: Option<string>): string {
    FallbackText(CompanyIdentifier(entries, KnownCompanyNameKeys), errorDetails)
  }

  /** `getFallbackContent` as written: a loop over the known keys that stops
      at the first truthy answer, then the document built piece by piece. */
  method GetFallbackContent(entries: seq<Entry>, errorDetails: Option<string>) returns (fallback: string)
    ensures fallback == FallbackContent(entries, errorDetails)
  {
    var keys := KnownCompanyNameKeys;
    var companyIdentifier := DefaultCompany;
    var i := 0;
    while i < |keys|
      invariant 0 <= i <= |keys|
      invariant companyIdentifier == DefaultCompany
      invariant CompanyIdentifier(entries, keys) == CompanyIdentifier(entries, keys[i..])
    {
      if TruthyMember(entries, keys[i]) {
        companyIdentifier := CompanyFrom(Get(entries, keys[i]).value);
        break;
      }
      assert keys[i..][1..] == keys[i + 1..];
      i := i + 1;
    }
    fallback := FallbackHeading;
    fallback := fallback + OpeningRest(companyIdentifier);
    fallback := fallback + DetailsPart(errorDetails);
    fallback := fallback + FallbackBody(companyIdentifier);
  }

  // ---------------------------------------------------------------------
  // Content validation
  // ---------------------------------------------------------------------

  /** The reference definition of acceptable generated text: a string whose
      trimmed length is at least 50 and whose lower-case form contains none
      of the error phrases. */
  predicate ValidContent(content: Option<string>) {
    && content.Some?
    && |Trim(content.value)| >= MinValidContentLength
    && NoPhrase(ToLower(content.value), ErrorPhrases)
  }

  /** None of `phrases` occurs in `text`. */
  predicate NoPhrase(text: string, phrases: seq<string>) {
    forall k :: 0 <= k < |phrases| ==> !Contains(text, phrases[k])
  }

  /** The scan loop of `isValidContent`: true at the first phrase found. */
  method FindPhrase(text: string, phrases: seq<string>) returns (found: bool)
    ensures found <==> !NoPhrase(text, phrases)
  {
    var i := 0;
    while i < |phrases|
      invariant 0 <= i <= |phrases|
      invariant forall k :: 0 <= k < i ==> !Contains(text, phrases[k])
    {
      if Contains(text, phrases[i]) {
        return true;
      }
      i := i + 1;
    }
    return false;
  }

  /** `isValidContent`: the length check, then a scan over the phrases that
      stops at the first one found. */
  method IsValidContent(content: Option<string>) returns (valid: bool)
    ensures valid == ValidContent(content)
  {
    if content.None? || |Trim(content.value)| < MinValidContentLength {
      return false;
    }
    var lowerCaseContent := ToLower(content.value);
    var found := FindPhrase(lowerCaseContent, ErrorPhrases);
    valid := !found;
  }

  // ---------------------------------------------------------------------
  // Decision flow
  // ---------------------------------------------------------------------

  /** What the cache read produced: the store was not ready, the key was
      absent, a stored text, or the read failed. */
  datatype CacheLookup = CacheNotReady | CacheMiss | CacheHit(cached: string) | CacheReadFailed

  /** What the completion call produced: the first choice's message text
      (absent when there is none), or an error with its message. */
  datatype Completion = Completed(content: Option<string>) | ApiFailed(message: string)

  /** The outcome of one generation: the text returned, whether the cache
      was read, the prompt sent to the completion endpoint (if it was
      called) and the cache entry written (if any). */
  datatype Generation = Generation(
    content: string,
    cacheRead: bool,
    promptSent: Option<string>,
    cacheWrite: Option<(string, string)>)

  const NotConfiguredDetails := "OpenAI API service not configured."
  const InvalidContentDetails := "AI failed to generate valid content."
  const RequestFailedDetails := "OpenAI API request failed."

  /** `generatePolicyContent`. `apiKey` is the configured key (empty when
      unset), `lookup` the cache read, `completion` the endpoint's answer
      and `storeReady` whether the cache is ready when the result is stored. */
  function GeneratePolicyContent(entries: seq<Entry>, apiKey: string, lookup: CacheLookup,
                                 completion: Completion, storeReady: bool): (g: Generation)
    ensures apiKey == "" ==> g == Generation(FallbackContent(entries, Some(NotConfiguredDetails)), false, None, None)
    ensures apiKey != "" && lookup.CacheHit? && ValidContent(Some(lookup.cached)) ==>
              g == Generation(lookup.cached, true, None, None)
  {
    if apiKey == "" then
      Generation(FallbackContent(entries, Some(NotConfiguredDetails)), false, None, None)
    else
      var key := CacheKey(entries);
      var cacheRead := lookup != CacheNotReady;
      if lookup.CacheHit? && lookup.cached != "" && ValidContent(Some(lookup.cached)) then
        Generation(lookup.cached, cacheRead, None, None)
      else
        var prompt := Prompt(entries);
        match completion
        case Completed(c) =>
          if ValidContent(c) then
            Generation(c.value, cacheRead, Some(prompt), if storeReady then Some((key, c.value)) else None)
          else
            Generation(FallbackContent(entries, Some(InvalidContentDetails)), cacheRead, Some(prompt), None)
        case ApiFailed(message) =>
          var details := if message != "" then message else RequestFailedDetails;
          Generation(FallbackContent(entries, Some(details)), cacheRead, Some(prompt), None)
  }

  /** The service always returns text: either text that passes validation
      or the fallback document with non-empty details. */
  lemma {:induction false} GenerationIsValidOrFallback(entries: seq<Entry>, apiKey: string, lookup: CacheLookup,
                                                       completion: Completion, storeReady: bool)
    ensures var g := GeneratePolicyContent(entries, apiKey, lookup, completion, storeReady);
            || ValidContent(Some(g.content))
            || exists d :: d != "" && g.content == FallbackContent(entries, Some(d))
  {
    var g := GeneratePolicyContent(entries, apiKey, lookup, completion, storeReady);
    if !ValidContent(Some(g.content)) {
      if apiKey == "" {
        assert g.content == FallbackContent(entries, Some(NotConfiguredDetails));
      } else if completion.ApiFailed? {
        var d := if completion.message != "" then completion.message else RequestFailedDetails;
        assert g.content == FallbackContent(entries, Some(d));
      } else {
        assert g.content == FallbackContent(entries, Some(InvalidContentDetails));
      }
    }
  }

  /** Only validated text is ever cached, under the answers' cache key, and
      it is the text returned; the completion endpoint is called exactly when
      there is a key and no valid cached text. */
  lemma CacheHoldsOnlyValidContent(entries: seq<Entry>, apiKey: string, lookup: CacheLookup,
                                   completion: Completion, storeReady: bool)
    ensures var g := GeneratePolicyContent(entries, apiKey, lookup, completion, storeReady);
            && (g.cacheWrite.Some? ==>
                  && g.cacheWrite.value.0 == CacheKey(entries)
                  && g.cacheWrite.value.1 == g.content
                  && ValidContent(Some(g.content)))
            && (g.promptSent.Some? <==>
                  apiKey != "" && !(lookup.CacheHit? && ValidContent(Some(lookup.cached))))
            && (g.promptSent.Some? ==> g.promptSent.value == Prompt(entries))
  {
    if lookup.CacheHit? && ValidContent(Some(lookup.cached)) {
      assert lookup.cached != "";
    }
  }

  /** Valid generated text is cached under a key that the same answers in
      any other member order also produce, and is then served from the cache
      for them without a new completion. */
  lemma CachedTextServesReorderedAnswers(e1: seq<Entry>, e2: seq<Entry>, apiKey: string,
                                         completion: Completion)
    requires DistinctKeys(e1) && DistinctKeys(e2) && multiset(e1) == multiset(e2)
    requires apiKey != "" && completion.Completed? && ValidContent(completion.content)
    ensures var text := completion.content.value;
            && GeneratePolicyContent(e1, apiKey, CacheMiss, completion, true).cacheWrite == Some((CacheKey(e2), text))
            && GeneratePolicyContent(e2, apiKey, CacheHit(text), completion, true) == Generation(text, true, None, None)
  {
    CacheKeyIgnoresOrder(e1, e2);
  }
}
