/**
 * How the handlers and the route guard fit together over a session: a
 * signup can be followed by a login with the same credentials, the cookie
 * a login writes gets through the guard, and the cookie logout writes does
 * not.
 *
 * `sign` stands for token signing and `verify` for its check; the two agree
 * when `verify(sign(id))` gives back the claims `{ userId: id }`.
 */
module Sessions {
  import opened JsValues
  import opened Users
  import opened Http
  import opened AuthController
  import opened ProtectRoute

  /** The hasher's round trip: a password matches its own hash. */
  ghost predicate HashMatches(hash: string -> string, compare: (string, string) -> bool)
  {
    forall p :: compare(p, hash(p))
  }

  /** A token verifies to the identifier it was signed for. */
  ghost predicate TokensVerify(sign: Id -> string, verify: string -> Verification)
  {
    forall id :: sign(id) != "" && verify(sign(id)) == Claims(Some(id))
  }

  /** After a successful signup, logging in with the same body succeeds for the new record. */
  lemma SignupThenLogin(users: seq<User>, id: Id, body: Document, hash: string -> string, draw: nat,
                        compare: (string, string) -> bool)
    requires draw < 100
    requires HashMatches(hash, compare)
    requires SignupSpec(users, id, body, hash, draw, true, true).res.status == 201
    ensures var o := SignupSpec(users, id, body, hash, draw, true, true);
      Login(o.users, body, compare) == Response(200, Record(o.users[|users|]), SessionToken(id))
  {
    var o := SignupSpec(users, id, body, hash, draw, true, true);
    var u := o.users[|users|];
    SignupSuccess(users, id, body, hash, draw, true, true);
    FindByEmailAppend(users, u, Field(body, "email"));
    var p := Field(body, "password").s;
    assert compare(p, hash(p));
  }

  /** The session cookie a successful signup writes lets the next request through the guard as the new user. */
  lemma SignupThenAuthorized(users: seq<User>, id: Id, body: Document, hash: string -> string, draw: nat,
                             jar: map<string, string>, sign: Id -> string, verify: string -> Verification)
    requires draw < 100
    requires FindById(users, id).None?
    requires TokensVerify(sign, verify)
    requires SignupSpec(users, id, body, hash, draw, true, true).res.status == 201
    ensures var o := SignupSpec(users, id, body, hash, draw, true, true);
      Authorize(JwtCookie(StoreCookie(jar, o.res.cookie, sign)), verify, o.users)
        == Admit(WithoutPassword(o.users[|users|]))
  {
    var o := SignupSpec(users, id, body, hash, draw, true, true);
    SignupSuccess(users, id, body, hash, draw, true, true);
    FindByIdAppend(users, o.users[|users|]);
    assert verify(sign(id)) == Claims(Some(id));
  }

  /** The session cookie of a successful login lets the next request through the guard. */
  lemma LoginThenAuthorized(users: seq<User>, body: Document, compare: (string, string) -> bool,
                            jar: map<string, string>, sign: Id -> string, verify: string -> Verification)
    requires IdsDistinct(users)
    requires TokensVerify(sign, verify)
    requires Login(users, body, compare).status == 200
    ensures var r := Login(users, body, compare);
      Authorize(JwtCookie(StoreCookie(jar, r.cookie, sign)), verify, users) == Admit(WithoutPassword(r.json.record))
  {
    var r := Login(users, body, compare);
    var id := r.cookie.userId;
    var i := FindByEmail(users, Field(body, "email")).value;
    assert users[i] == r.json.record;
    FindByIdUnique(users, i);
    assert verify(sign(id)) == Claims(Some(id));
  }

  /** After logout the client holds no `jwt` cookie, so the guard answers "User not authorized". */
  lemma LogoutThenRejected(jar: map<string, string>, sign: Id -> string, verify: string -> Verification,
                           users: seq<User>)
    ensures Authorize(JwtCookie(StoreCookie(jar, Logout().cookie, sign)), verify, users)
         == Reject(Response(400, Error(NotAuthorized), NoCookie))
  {
  }

  /**
   * A user the guard admitted can be onboarded: the update finds the record
   * the guard loaded and marks it onboarded.
   */
  lemma AdmittedUserOnboards(token: Option<string>, verify: string -> Verification, users: seq<User>, body: Document)
    requires ProfileComplete(body)
    requires Authorize(token, verify, users).Admit?
    ensures var o := OnboardSpec(users, Authorize(token, verify, users).user.id, body, true);
      o.res.status == 200 && o.res.json.user.Some? && o.res.json.user.value.doc["isOnboarded"] == Bool(true)
  {
  }
}
