/** The replies the Express controllers send: a status code and a JSON body. */
module HttpReply {
  import opened JsonValue

  datatype Reply = Reply(status: int, body: Json)

  /** A body with one string member, such as `{ error: "…" }` or
      `{ message: "…" }`. */
  function Single(key: string, text: string): (r: Json)
    ensures r.JObj? && |r.fields| == 1 && r.fields[0] == (key, JStr(text))
  {
    JObj([(key, JStr(text))])
  }

  /** A body with a string member and a `details` member. */
  function WithDetails(key: string, text: string, details: string): (r: Json)
    ensures r.JObj? && r.fields == [(key, JStr(text)), ("details", JStr(details))]
  {
    JObj([(key, JStr(text)), ("details", JStr(details))])
  }
}
