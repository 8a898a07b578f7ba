/** The JSON values the backend receives in request bodies, with the
    JavaScript operations the services apply to them: truthiness, property
    lookup, template-string conversion and `JSON.stringify`. Numbers are
    integers. An object is its list of members in enumeration order. */
module JsonValue {
  import opened Wrappers
  import opened Strings

  datatype Json =
    | JNull
    | JBool(b: bool)
    | JNum(n: int)
    | JStr(s: string)
    | JArr(items: seq<Json>)
    | JObj(fields: seq<(string, Json)>)

  /** The member names of an object, in order. */
  function Keys(fields: seq<(string, Json)>): (r: seq<string>)
    ensures |r| == |fields|
    ensures forall k :: 0 <= k < |fields| ==> r[k] == fields[k].0
  {
    if fields == [] then [] else [fields[0].0] + Keys(fields[1..])
  }

  /** An object as `JSON.parse` builds it: no member name twice. */
  predicate DistinctKeys(fields: seq<(string, Json)>) {
    forall i, j :: 0 <= i < j < |fields| ==> fields[i].0 != fields[j].0
  }

  /** `obj[key]` for an own member: the value of the member named `key`. */
  function Get(fields: seq<(string, Json)>, key: string): Option<Json> {
    if fields == [] then None
    else if fields[0].0 == key then Some(fields[0].1)
    else Get(fields[1..], key)
  }

  /** A lookup finds a value exactly when some member has the name, and the
      value it finds is that of a member with the name. */
  lemma {:induction false} GetSpec(fields: seq<(string, Json)>, key: string)
    ensures Get(fields, key).None? <==> key !in Keys(fields)
    ensures Get(fields, key).Some? ==> (key, Get(fields, key).value) in fields
  {
    if fields != [] && fields[0].0 != key {
      GetSpec(fields[1..], key);
      assert Keys(fields) == [fields[0].0] + Keys(fields[1..]);
    }
  }

  /** `key in value`: an own member of an object. Arrays and primitives have
      no member called `text` or `value`, the only names this is asked about. */
  predicate HasMember(j: Json, key: string) {
    j.JObj? && key in Keys(j.fields)
  }

  /** JavaScript truthiness of a JSON value. */
  predicate Truthy(j: Json) {
    match j
    case JNull => false
    case JBool(b) => b
    case JNum(n) => n != 0
    case JStr(s) => s != ""
    case JArr(_) => true
    case JObj(_) => true
  }

  /** `String(j)`, as a template literal prints it: arrays join their
      elements with commas, printing `null` elements as nothing. */
  function TemplateString(j: Json): string
    decreases j
  {
    match j
    case JNull => "null"
    case JBool(b) => if b then "true" else "false"
    case JNum(n) => IntToString(n)
    case JStr(s) => s
    case JArr(items) =>
      Join(seq(|items|, i requires 0 <= i < |items| =>
             if items[i] == JNull then "" else TemplateString(items[i])), ",")
    case JObj(_) => "[object Object]"
  }

  /** Four lower-case hexadecimal digits of `n < 65536`. */
  function Hex4(n: nat): (r: string)
    requires n < 0x1_0000
    ensures |r| == 4
  {
    var d := "0123456789abcdef";
    [d[n / 4096], d[n / 256 % 16], d[n / 16 % 16], d[n % 16]]
  }

  /** One character as it appears inside a JSON string literal. */
  function EscapeChar(c: char): (r: string)
    ensures |r| >= 1
    ensures c != '"' && c != '\\' && c >= ' ' ==> r == [c]
  {
    if c == '"' then "\\\""
    else if c == '\\' then "\\\\"
    else if c == '\U{0008}' then "\\b"
    else if c == '\t' then "\\t"
    else if c == '\n' then "\\n"
    else if c == '\U{000C}' then "\\f"
    else if c == '\r' then "\\r"
    else if c < ' ' then "\\u" + Hex4(c as nat)
    else [c]
  }

  /** The JSON string literal for `s`. */
  function Quote(s: string): (r: string)
    ensures |r| >= |s| + 2
  {
    "\"" + EscapeBody(s) + "\""
  }

  function EscapeBody(s: string): (r: string)
    ensures |r| >= |s|
  {
    if s == [] then "" else EscapeChar(s[0]) + EscapeBody(s[1..])
  }

  /** `JSON.stringify(j)`: no white space, members in enumeration order. */
  function Stringify(j: Json): string
    decreases j
  {
    match j
    case JNull => "null"
    case JBool(b) => if b then "true" else "false"
    case JNum(n) => IntToString(n)
    case JStr(s) => Quote(s)
    case JArr(items) =>
      "[" + Join(seq(|items|, i requires 0 <= i < |items| => Stringify(items[i])), ",") + "]"
    case JObj(fields) =>
      "{" + Join(seq(|fields|, i requires 0 <= i < |fields| =>
                   Quote(fields[i].0) + ":" + Stringify(fields[i].1)), ",") + "}"
  }
}
