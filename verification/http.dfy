/** The shapes of API Gateway events and Lambda replies shared by every handler. */
module Http {
  import opened Wrappers

  /** `event.headers`: the key may be absent, hold `null`, or hold a header map.
      Header names are matched exactly, as the handlers read `headers.Authorization`. */
  datatype HeaderBag = NoHeaders | NullHeaders | Headers(fields: map<string, string>)

  /** The `Authorization` header, when the event carries a header map that has one. */
  function Authorization(h: HeaderBag): (r: Option<string>)
    ensures r.Some? <==> h.Headers? && "Authorization" in h.fields
    ensures r.Some? ==> r.value == h.fields["Authorization"]
  {
    match h
    case Headers(fields) => if "Authorization" in fields then Some(fields["Authorization"]) else None
    case _ => None
  }

  /** The fields a handler destructures from `JSON.parse(event.body)`; an absent field is
      `undefined`. */
  datatype Body = Body(username: Option<string>, password: Option<string>, refreshToken: Option<string>)

  /** `event.body`: falsy (absent, `null` or empty), text that `JSON.parse` rejects or that
      parses to `null`, or a parsed object. */
  datatype RawBody = NoBody | Malformed | Json(fields: Body)

  /** An API Gateway proxy event, with its body already through `JSON.parse`. */
  datatype Request = Request(httpMethod: string, path: string, headers: HeaderBag, body: RawBody)

  /** The request is a `verb` call on `path`; methods and paths compare exactly. */
  predicate Is(req: Request, verb: string, path: string) {
    req.httpMethod == verb && req.path == path
  }

  /** What the reply body carries. */
  datatype Payload =
    | Empty
    | Message(text: string)
    | TokenPair(accessToken: string, refreshToken: string)
    | AccessToken(token: string)
    | Data(text: string)

  datatype Reply = Reply(status: int, payload: Payload)

  /** A reply together with the table a handler leaves behind. */
  datatype Answer<T> = Answer(reply: Reply, after: T)

  const InternalError := Reply(500, Message("Internal Server Error"))
  const NotFound := Reply(404, Message("Not Found"))
}
