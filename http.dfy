/**
 * What a handler leaves on the response: a status code, a JSON body and at
 * most one cookie write. `StoreCookie` is the client side of the cookie
 * write, used to state what a later request carries.
 */
module Http {
  import opened JsValues
  import opened Users

  /** The JSON bodies the handlers send. */
  datatype Json =
    | Message(message: string)                          // { message }
    | Error(error: string)                              // { error }
    | Missing(message: string, missingFields: seq<string>)
    | Wrapped(user: Option<User>)                       // { user }, where None is null
    | Record(record: User)                              // the user document itself

  /** The cookie a handler writes. */
  datatype Cookie =
    | NoCookie
    | SessionToken(userId: Id)                          // the signed `jwt` cookie for a user
    | Write(name: string, value: string, maxAge: int)   // `res.cookie(name, value, { maxAge })`

  datatype Response = Response(status: int, json: Json, cookie: Cookie)

  const ServerErrorMessage := "Internal server error"

  /** The catch-all answer of every handler's `catch` block. */
  const InternalError := Response(500, Message(ServerErrorMessage), NoCookie)

  /** A 400 answer with a `message` body and no cookie. */
  function BadRequest(message: string): (r: Response)
    ensures r.status == 400 && r.json.Message? && r.json.message == message && r.cookie == NoCookie
  {
    Response(400, Message(message), NoCookie)
  }

  /**
   * The cookie jar a client holds after a response: a session token is stored
   * under `jwt` as `sign(id)`; a cookie written with a max-age of zero or less
   * expires at once and is dropped.
   */
  function StoreCookie(jar: map<string, string>, c: Cookie, sign: Id -> string): (r: map<string, string>)
    ensures c.NoCookie? ==> r == jar
    ensures c.SessionToken? ==> "jwt" in r && r["jwt"] == sign(c.userId)
    ensures c.Write? && c.maxAge <= 0 ==> c.name !in r
    ensures c.Write? && c.maxAge > 0 ==> c.name in r && r[c.name] == c.value
  {
    match c
    case NoCookie => jar
    case SessionToken(id) => jar["jwt" := sign(id)]
    case Write(name, value, maxAge) => if maxAge <= 0 then jar - {name} else jar[name := value]
  }
}
