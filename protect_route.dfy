/**
 * The route guard: it reads the `jwt` cookie, verifies it, loads the user it
 * names and either attaches that user (without its password) to the request
 * and passes control on, or answers the request itself.
 *
 * Token verification is the parameter `verify`: it throws, yields a falsy
 * result, or yields claims whose `userId` may be absent.
 */
module ProtectRoute {
  import opened JsValues
  import opened Users
  import opened Http

  const NotAuthorized := "User not authorized"
  const InvalidToken := "Invalid token"
  const UserNotFound := "User not found"

  /** What verifying a token gives. */
  datatype Verification =
    | Throws                       // a bad signature, an expired token, ...
    | Falsy                        // a falsy decoded value
    | Claims(userId: Option<Id>)   // decoded claims; `userId` absent reads as undefined

  /** The guard's decision: answer the request, or continue with this user attached. */
  datatype Gate = Reject(res: Response) | Admit(user: User)

  /** `req.cookies.jwt`. */
  function JwtCookie(cookies: map<string, string>): (token: Option<string>)
    ensures token.Some? <==> "jwt" in cookies
    ensures token.Some? ==> token.value == cookies["jwt"]
  {
    if "jwt" in cookies then Some(cookies["jwt"]) else None
  }

  /** The early-return ladder of the guard, as a decision. */
  function Authorize(token: Option<string>, verify: string -> Verification, users: seq<User>): (g: Gate)
    ensures g.Admit? ==> "password" !in g.user.doc && FindById(users, g.user.id).Some?
    ensures g.Reject? ==> g.res.cookie == NoCookie && (g.res.status == 400 || g.res == InternalError)
  {
    if token.None? || token.value == "" then Reject(Response(400, Error(NotAuthorized), NoCookie))
    else match verify(token.value)
      case Throws => Reject(InternalError)
      case Falsy => Reject(Response(400, Error(InvalidToken), NoCookie))
      case Claims(claimed) =>
        // `findById(undefined)` finds nothing
        var found := if claimed.Some? then FindById(users, claimed.value) else None;
        if found.None? then Reject(Response(400, Error(UserNotFound), NoCookie))
        else Admit(WithoutPassword(users[found.value]))
  }

  /** A token that verifies to the identifier of a record in the directory. */
  ghost predicate Authenticates(token: Option<string>, verify: string -> Verification, users: seq<User>, id: Id)
  {
    token.Some? && token.value != "" && verify(token.value) == Claims(Some(id)) && FindById(users, id).Some?
  }

  /** A missing or empty cookie is answered 400 "User not authorized". */
  lemma NoTokenRejected(token: Option<string>, verify: string -> Verification, users: seq<User>)
    requires token.None? || token.value == ""
    ensures Authorize(token, verify, users) == Reject(Response(400, Error(NotAuthorized), NoCookie))
  {
  }

  /** A token whose verification throws is answered 500, not 400. */
  lemma ThrowingVerifyIsServerError(token: string, verify: string -> Verification, users: seq<User>)
    requires token != "" && verify(token) == Throws
    ensures Authorize(Some(token), verify, users) == Reject(InternalError)
  {
  }

  /** A falsy decoded token is answered 400 "Invalid token". */
  lemma FalsyDecodeRejected(token: string, verify: string -> Verification, users: seq<User>)
    requires token != "" && verify(token) == Falsy
    ensures Authorize(Some(token), verify, users) == Reject(Response(400, Error(InvalidToken), NoCookie))
  {
  }

  /** Claims naming no record in the directory are answered 400 "User not found". */
  lemma UnknownUserRejected(token: string, verify: string -> Verification, users: seq<User>)
    requires token != "" && verify(token).Claims?
    requires verify(token).userId.None? || FindById(users, verify(token).userId.value).None?
    ensures Authorize(Some(token), verify, users) == Reject(Response(400, Error(UserNotFound), NoCookie))
  {
  }

  /**
   * The guard lets a request through exactly when the token authenticates a
   * record, and then attaches that record with its password removed.
   */
  lemma AdmitIffAuthenticated(token: Option<string>, verify: string -> Verification, users: seq<User>)
    ensures Authorize(token, verify, users).Admit? <==>
      token.Some? && token.value != "" && verify(token.value).Claims? && verify(token.value).userId.Some?
      && Authenticates(token, verify, users, verify(token.value).userId.value)
    ensures Authorize(token, verify, users).Admit? ==>
      var id := verify(token.value).userId.value;
      Authorize(token, verify, users).user == WithoutPassword(FindUser(users, id))
  {
  }

  /** The request object as the guard sees it: its cookies, `req.user`, and what happened to it. */
  class Request {
    const cookies: map<string, string>
    var user: Option<User>        // `req.user`; None while unset
    var nextCalls: nat            // how many times `next()` was called
    var response: Option<Response>  // the answer sent, if any

    constructor (cookies: map<string, string>)
      ensures this.cookies == cookies && user.None? && nextCalls == 0 && response.None?
    {
      this.cookies := cookies;
      user := None;
      nextCalls := 0;
      response := None;
    }
  }

  /**
   * The guard. It changes only the request: on admission it sets `req.user`
   * and calls `next()` once; otherwise it answers and leaves `req.user` alone.
   */
  method Protect(req: Request, dir: Directory, verify: string -> Verification)
    modifies req
    ensures dir.users == old(dir.users)
    ensures var g := Authorize(JwtCookie(req.cookies), verify, dir.users);
      if g.Admit? then
        req.user == Some(g.user) && req.nextCalls == old(req.nextCalls) + 1 && req.response == old(req.response)
      else
        req.user == old(req.user) && req.nextCalls == old(req.nextCalls) && req.response == Some(g.res)
  {
    var token := JwtCookie(req.cookies);
    if token.None? || token.value == "" {
      req.response := Some(Response(400, Error(NotAuthorized), NoCookie));
      return;
    }
    var decoded := verify(token.value);
    if decoded.Throws? {
      req.response := Some(InternalError);
      return;
    }
    if decoded.Falsy? {
      req.response := Some(Response(400, Error(InvalidToken), NoCookie));
      return;
    }
    var found := if decoded.userId.Some? then FindById(dir.users, decoded.userId.value) else None;
    if found.None? {
      req.response := Some(Response(400, Error(UserNotFound), NoCookie));
      return;
    }
    req.user := Some(WithoutPassword(dir.users[found.value]));
    req.nextCalls := req.nextCalls + 1;
  }
}
