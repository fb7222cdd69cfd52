/**
 * The authentication handlers: signup, login, logout and onboarding.
 *
 * Collaborators are parameters: `hash` and `compare` stand for the password
 * hasher, `draw` for the random avatar draw, and `upsertOk` / `saveOk` /
 * `updateOk` for whether the presence upsert and the directory writes
 * succeed. Each handler that changes the directory is a method on
 * `Users.Directory` state, proved equal to a pure outcome function, and the
 * properties of the handler are lemmas about that function.
 */
module AuthController {
  import opened JsValues
  import opened Users
  import opened Http

  const SignupFieldsRequired := "All the fields are required"
  const PasswordTooShort := "Password must be at least 6 characters long"
  const InvalidEmailFormat := "Invalid email format"
  const EmailTaken := "Email already exists, please use a different one"
  const FieldsRequired := "All fields are required"
  const InvalidCredentials := "Invalid email or password"
  const LoggedOut := "Logged out successfully"

  /** The length the signup check enforces (its message says 6). */
  const MinPasswordLength := 8

  const AvatarPrefix := "https://avatar.iran.liara.run/public/"
  const AvatarSuffix := ".png"

  /**
   * The regular-expression literal of the email check. The check negates the
   * literal itself, an object, rather than the result of testing the email.
   */
  const EmailPattern: Value := Obj

  /** The fields onboarding requires, in the order `missingFields` lists them. */
  const ProfileFields := ["fullName", "bio", "nativeLanguage", "learningLanguage", "location"]

  /** The argument of the presence upsert: `{ id, name, image }`. */
  datatype PresenceUser = PresenceUser(id: Id, name: Value, image: Value)

  /** A handler's response, the presence upsert it issued (if any) and the directory after it. */
  datatype Outcome = Outcome(res: Response, presence: Option<PresenceUser>, users: seq<User>)

  // ---------------------------------------------------------------- avatars

  /** The avatar URL with index `idx`. */
  function AvatarUrl(idx: nat): (u: string)
    ensures |u| > |AvatarPrefix| + |AvatarSuffix|
    ensures u[..|AvatarPrefix|] == AvatarPrefix && u[|u| - |AvatarSuffix|..] == AvatarSuffix
  {
    AvatarPrefix + Decimal(idx) + AvatarSuffix
  }

  /** The index an avatar URL carries, if it has the avatar shape. */
  function AvatarIndex(url: string): Option<nat>
  {
    if |url| <= |AvatarPrefix| + |AvatarSuffix| then None
    else if url[..|AvatarPrefix|] != AvatarPrefix || url[|url| - |AvatarSuffix|..] != AvatarSuffix then None
    else
      var digits := url[|AvatarPrefix|..|url| - |AvatarSuffix|];
      if forall i :: 0 <= i < |digits| ==> IsDigit(digits[i]) then Some(ParseDecimal(digits)) else None
  }

  /** The index written into an avatar URL is the one read back from it. */
  lemma AvatarUrlRoundTrip(idx: nat)
    ensures AvatarIndex(AvatarUrl(idx)) == Some(idx)
  {
    var d := Decimal(idx);
    var url := AvatarUrl(idx);
    assert url[..|AvatarPrefix|] == AvatarPrefix;
    assert url[|url| - |AvatarSuffix|..] == AvatarSuffix;
    assert url[|AvatarPrefix|..|url| - |AvatarSuffix|] == d;
    DecimalRoundTrip(idx);
  }

  // ----------------------------------------------------------------- signup

  /** The record signup builds: name, email, hashed password and avatar. */
  function NewUser(id: Id, body: Document, hashed: string, idx: nat): (u: User)
    ensures u.id == id && u.doc.Keys == {"fullName", "email", "password", "profilePic"}
    ensures HasEmail(u, Field(body, "email")) && u.doc["fullName"] == Field(body, "fullName")
    ensures u.doc["password"] == Str(hashed)
    ensures u.doc["profilePic"].Str? && AvatarIndex(u.doc["profilePic"].s) == Some(idx)
  {
    AvatarUrlRoundTrip(idx);
    User(id, map["fullName" := Field(body, "fullName"), "email" := Field(body, "email"),
                 "password" := Str(hashed), "profilePic" := Str(AvatarUrl(idx))])
  }

  /** The presence upsert a handler issues for a record. */
  function PresenceOf(u: User): (p: PresenceUser)
    ensures p.id == u.id && p.name == Field(u.doc, "fullName")
    ensures Truthy(Field(u.doc, "profilePic")) ==> p.image == u.doc["profilePic"]
    ensures !Truthy(Field(u.doc, "profilePic")) ==> p.image == Str("")
  {
    PresenceUser(u.id, Field(u.doc, "fullName"), Or(Field(u.doc, "profilePic"), Str("")))
  }

  /**
   * Signup's fail-fast validation: the rejection it answers with, or None when
   * every check passes.
   */
  function SignupCheck(users: seq<User>, body: Document): (r: Option<Response>)
    ensures r.None? <==>
      Truthy(Field(body, "email")) && Truthy(Field(body, "password")) && Truthy(Field(body, "fullName"))
      && !LengthBelow(Field(body, "password"), MinPasswordLength)
      && FindByEmail(users, Field(body, "email")).None?
    ensures r.Some? ==> r.value.status == 400 && r.value.cookie == NoCookie
  {
    var email := Field(body, "email");
    var password := Field(body, "password");
    var fullName := Field(body, "fullName");
    if !Truthy(email) || !Truthy(password) || !Truthy(fullName) then Some(BadRequest(SignupFieldsRequired))
    else if LengthBelow(password, MinPasswordLength) then Some(BadRequest(PasswordTooShort))
    else if !Truthy(EmailPattern) then Some(BadRequest(InvalidEmailFormat))
    else if FindByEmail(users, email).Some? then Some(BadRequest(EmailTaken))
    else None
  }

  /**
   * What signup does with directory `users`, when the new record would get
   * identifier `id` and the avatar draw is `draw` (0 to 99).
   */
  function SignupSpec(users: seq<User>, id: Id, body: Document, hash: string -> string, draw: nat,
                      upsertOk: bool, saveOk: bool): (o: Outcome)
    requires draw < 100
    ensures o.res.status == 201 || o.res.status == 400 || o.res.status == 500
    ensures o.res.status != 201 ==> o.users == users
    ensures o.res.status == 201 ==> |o.users| == |users| + 1 && o.users[..|users|] == users
    ensures o.res.status == 201 ==> o.res.cookie == SessionToken(id) && o.presence.Some?
    ensures o.res.cookie.SessionToken? ==> o.res.cookie.userId == id && o.presence.Some? && o.presence.value.id == id
  {
    match SignupCheck(users, body)
    case Some(rejection) => Outcome(rejection, None, users)
    case None =>
      var password := Field(body, "password");
      if !password.Str? then
        // bcrypt rejects a password that is not a string
        Outcome(InternalError, None, users)
      else
        var user := NewUser(id, body, hash(password.s), draw + 1);
        var presence := Some(PresenceOf(user));
        if !upsertOk then Outcome(InternalError, presence, users)
        else if !saveOk then Outcome(InternalError.(cookie := SessionToken(id)), presence, users)
        else Outcome(Response(201, Wrapped(Some(user)), SessionToken(id)), presence, users + [user])
  }

  /** The signup handler, changing the directory in place. */
  method Signup(dir: Directory, body: Document, hash: string -> string, draw: nat, upsertOk: bool, saveOk: bool)
    returns (res: Response, presence: Option<PresenceUser>)
    requires dir.Valid() && draw < 100
    modifies dir
    ensures dir.Valid()
    ensures Outcome(res, presence, dir.users)
         == SignupSpec(old(dir.users), old(dir.nextId), body, hash, draw, upsertOk, saveOk)
    ensures dir.nextId == if SignupCheck(old(dir.users), body).None? && Field(body, "password").Str?
                          then old(dir.nextId) + 1 else old(dir.nextId)
  {
    presence := None;
    var rejection := SignupCheck(dir.users, body);
    if rejection.Some? {
      res := rejection.value;
      return;
    }
    var password := Field(body, "password");
    if !password.Str? {
      res := InternalError;
      return;
    }
    var hashed := hash(password.s);
    var idx := draw + 1;
    var id := dir.NewId();
    var user := NewUser(id, body, hashed, idx);
    presence := Some(PresenceOf(user));
    if !upsertOk {
      res := InternalError;
      return;
    }
    var cookie := SessionToken(id);
    if !saveOk {
      res := Response(500, Message(ServerErrorMessage), cookie);
      return;
    }
    dir.Insert(user);
    res := Response(201, Wrapped(Some(user)), cookie);
  }

  /** A falsy email, password or full name is the first rejection, and nothing changes. */
  lemma SignupRequiresAllFields(users: seq<User>, id: Id, body: Document, hash: string -> string, draw: nat,
                                upsertOk: bool, saveOk: bool)
    requires draw < 100
    requires !Truthy(Field(body, "email")) || !Truthy(Field(body, "password")) || !Truthy(Field(body, "fullName"))
    ensures SignupSpec(users, id, body, hash, draw, upsertOk, saveOk)
         == Outcome(BadRequest(SignupFieldsRequired), None, users)
  {
  }

  /**
   * A string password shorter than 8 is rejected, lengths 6 and 7 included,
   * although the message names 6 as the minimum.
   */
  lemma SignupRejectsShortPassword(users: seq<User>, id: Id, body: Document, hash: string -> string, draw: nat,
                                   upsertOk: bool, saveOk: bool)
    requires draw < 100
    requires Truthy(Field(body, "email")) && Truthy(Field(body, "fullName"))
    requires Field(body, "password").Str? && 0 < |Field(body, "password").s| < 8
    ensures SignupSpec(users, id, body, hash, draw, upsertOk, saveOk)
         == Outcome(BadRequest(PasswordTooShort), None, users)
  {
  }

  /** The email-format check never fires: no input is answered "Invalid email format". */
  lemma SignupNeverRejectsEmailFormat(users: seq<User>, id: Id, body: Document, hash: string -> string, draw: nat,
                                      upsertOk: bool, saveOk: bool)
    requires draw < 100
    ensures SignupSpec(users, id, body, hash, draw, upsertOk, saveOk).res != BadRequest(InvalidEmailFormat)
  {
  }

  /** An email already in the directory is rejected once the earlier checks pass, and nothing changes. */
  lemma SignupRejectsTakenEmail(users: seq<User>, id: Id, body: Document, hash: string -> string, draw: nat,
                                upsertOk: bool, saveOk: bool)
    requires draw < 100
    requires Truthy(Field(body, "email")) && Truthy(Field(body, "password")) && Truthy(Field(body, "fullName"))
    requires !LengthBelow(Field(body, "password"), MinPasswordLength)
    requires exists j :: 0 <= j < |users| && HasEmail(users[j], Field(body, "email"))
    ensures SignupSpec(users, id, body, hash, draw, upsertOk, saveOk) == Outcome(BadRequest(EmailTaken), None, users)
  {
  }

  /** The conditions under which signup answers 201. */
  ghost predicate SignupAccepted(users: seq<User>, body: Document, upsertOk: bool, saveOk: bool)
  {
    SignupCheck(users, body).None? && Field(body, "password").Str? && upsertOk && saveOk
  }

  /**
   * Signup succeeds exactly when validation passes, the password is a string
   * and both collaborators succeed; the directory then gains one record, the
   * only one with that email, holding the hashed password and an avatar with
   * index 1 to 100; the session cookie is set and the presence upsert carries
   * the new identifier and name.
   */
  lemma SignupSuccess(users: seq<User>, id: Id, body: Document, hash: string -> string, draw: nat,
                      upsertOk: bool, saveOk: bool)
    requires draw < 100
    ensures var o := SignupSpec(users, id, body, hash, draw, upsertOk, saveOk);
      o.res.status == 201 <==> SignupAccepted(users, body, upsertOk, saveOk)
    ensures var o := SignupSpec(users, id, body, hash, draw, upsertOk, saveOk);
      o.res.status == 201 ==>
        var u := o.users[|users|];
        && o.users == users + [u]
        && u.id == id
        && HasEmail(u, Field(body, "email"))
        && (forall j :: 0 <= j < |users| ==> !HasEmail(o.users[j], Field(body, "email")))
        && u.doc["password"] == Str(hash(Field(body, "password").s))
        && u.doc["fullName"] == Field(body, "fullName")
        && u.doc["profilePic"].Str?
        && AvatarIndex(u.doc["profilePic"].s) == Some(draw + 1)
        && o.res == Response(201, Wrapped(Some(u)), SessionToken(id))
        && o.presence == Some(PresenceUser(id, Field(body, "fullName"), u.doc["profilePic"]))
  {
    AvatarUrlRoundTrip(draw + 1);
  }

  /** A failed presence upsert is answered 500, without a cookie, and nothing is saved. */
  lemma SignupPresenceFailure(users: seq<User>, id: Id, body: Document, hash: string -> string, draw: nat, saveOk: bool)
    requires draw < 100
    requires SignupCheck(users, body).None? && Field(body, "password").Str?
    ensures var o := SignupSpec(users, id, body, hash, draw, false, saveOk);
      o.res == InternalError && o.users == users && o.presence.Some?
  {
  }

  /**
   * A failed save is answered 500 and nothing is saved, but the session cookie
   * for the unsaved identifier has already been written.
   */
  /**
   * bcrypt's `hash` throws on a password that is not a string, so a body that
   * passes every check with such a password is answered 500 and nothing is saved.
   */
  lemma SignupNonStringPasswordIsServerError(users: seq<User>, id: Id, body: Document, hash: string -> string,
                                             draw: nat, upsertOk: bool, saveOk: bool)
    requires draw < 100
    requires SignupCheck(users, body).None? && !Field(body, "password").Str?
    ensures SignupSpec(users, id, body, hash, draw, upsertOk, saveOk) == Outcome(InternalError, None, users)
  {
  }

  lemma SignupSaveFailure(users: seq<User>, id: Id, body: Document, hash: string -> string, draw: nat)
    requires draw < 100
    requires SignupCheck(users, body).None? && Field(body, "password").Str?
    requires forall j :: 0 <= j < |users| ==> users[j].id != id
    ensures var o := SignupSpec(users, id, body, hash, draw, true, false);
      o.res.status == 500 && o.res.cookie == SessionToken(id) && FindById(o.users, id).None?
  {
  }

  // ------------------------------------------------------------------ login

  /** `user.password || ""`: the hash login compares against. */
  function StoredHash(u: User): (h: Value)
    ensures Truthy(Field(u.doc, "password")) ==> h == u.doc["password"]
    ensures !Truthy(Field(u.doc, "password")) ==> h == Str("")
    ensures h.Str? || Truthy(h)
  {
    Or(Field(u.doc, "password"), Str(""))
  }

  /** The login handler; it only reads the directory. */
  function Login(users: seq<User>, body: Document, compare: (string, string) -> bool): (r: Response)
    ensures r.status == 200 || r.status == 400 || r.status == 500
    ensures r.status == 200 <==> r.cookie.SessionToken?
    ensures !Truthy(Field(body, "email")) || !Truthy(Field(body, "password")) ==> r == BadRequest(FieldsRequired)
    ensures r.status == 200 ==>
      && r.json.Record? && r.json.record in users && r.cookie.userId == r.json.record.id
      && HasEmail(r.json.record, Field(body, "email"))
    ensures r.status == 200 ==>
      && FindByEmail(users, Field(body, "email")).Some?
      && r.json.record == users[FindByEmail(users, Field(body, "email")).value]
  {
    var email := Field(body, "email");
    var password := Field(body, "password");
    if !Truthy(email) || !Truthy(password) then BadRequest(FieldsRequired)
    else match FindByEmail(users, email)
      case None => BadRequest(InvalidCredentials)
      case Some(i) =>
        var user := users[i];
        var stored := StoredHash(user);
        if !password.Str? || !stored.Str? then
          // bcrypt rejects arguments that are not strings
          InternalError
        else if !compare(password.s, stored.s) then BadRequest(InvalidCredentials)
        else Response(200, Record(user), SessionToken(user.id))
  }

  /**
   * An unknown email and a wrong password get the same answer, so the answer
   * does not tell which of the two was wrong.
   */
  lemma LoginHidesWhichCredentialFailed(users: seq<User>, unknown: Document, wrong: Document,
                                        compare: (string, string) -> bool)
    requires Truthy(Field(unknown, "email")) && Truthy(Field(unknown, "password"))
    requires FindByEmail(users, Field(unknown, "email")).None?
    requires Truthy(Field(wrong, "email")) && Field(wrong, "password").Str? && Field(wrong, "password").s != ""
    requires FindByEmail(users, Field(wrong, "email")).Some?
    requires StoredHash(users[FindByEmail(users, Field(wrong, "email")).value]).Str?
    requires !compare(Field(wrong, "password").s, StoredHash(users[FindByEmail(users, Field(wrong, "email")).value]).s)
    ensures Login(users, unknown, compare) == BadRequest(InvalidCredentials)
    ensures Login(users, wrong, compare) == BadRequest(InvalidCredentials)
  {
  }

  /** Login answers 200 exactly for a known email whose stored hash matches the password. */
  lemma LoginSucceedsIff(users: seq<User>, body: Document, compare: (string, string) -> bool)
    ensures Login(users, body, compare).status == 200 <==>
      && Truthy(Field(body, "email"))
      && Field(body, "password").Str? && Field(body, "password").s != ""
      && FindByEmail(users, Field(body, "email")).Some?
      && var u := users[FindByEmail(users, Field(body, "email")).value];
         StoredHash(u).Str? && compare(Field(body, "password").s, StoredHash(u).s)
  {
  }

  /**
   * bcrypt's `compare` throws on a password that is not a string, so a known
   * email with such a password is answered 500, not 400.
   */
  lemma LoginNonStringPasswordIsServerError(users: seq<User>, body: Document, compare: (string, string) -> bool)
    requires Truthy(Field(body, "email")) && Truthy(Field(body, "password")) && !Field(body, "password").Str?
    requires FindByEmail(users, Field(body, "email")).Some?
    ensures Login(users, body, compare) == InternalError
  {
  }

  // ----------------------------------------------------------------- logout

  /** The logout handler: it needs nothing from the request. */
  function Logout(): (r: Response)
    ensures r.status == 200 && r.json == Message(LoggedOut)
    ensures r.cookie == Write("jwt", "", 0)
  {
    Response(200, Message(LoggedOut), Write("jwt", "", 0))
  }

  // ---------------------------------------------------------------- onboard

  /** `s` lists some of the elements of `t`, in the order `t` has them. */
  ghost predicate Subsequence(s: seq<string>, t: seq<string>)
    decreases |t|
  {
    s == [] || (t != [] && ((s[0] == t[0] && Subsequence(s[1..], t[1..])) || Subsequence(s, t[1..])))
  }

  /** The names among `names` whose body field is falsy, in order. */
  function FalsyFields(body: Document, names: seq<string>): (r: seq<string>)
    ensures forall k :: k in r <==> k in names && !Truthy(Field(body, k))
    ensures Subsequence(r, names)
  {
    if names == [] then []
    else
      var rest := FalsyFields(body, names[1..]);
      if !Truthy(Field(body, names[0])) then [names[0]] + rest else rest
  }

  /** The `missingFields` list of an onboarding rejection. */
  function MissingFields(body: Document): (r: seq<string>)
    ensures forall k :: k in r <==> k in ProfileFields && !Truthy(Field(body, k))
    ensures Subsequence(r, ProfileFields)
  {
    FalsyFields(body, ProfileFields)
  }

  /** Every field onboarding requires is truthy. */
  predicate ProfileComplete(body: Document)
    ensures ProfileComplete(body) <==> forall k :: k in ProfileFields ==> Truthy(Field(body, k))
  {
    && Truthy(Field(body, "fullName")) && Truthy(Field(body, "bio"))
    && Truthy(Field(body, "nativeLanguage")) && Truthy(Field(body, "learningLanguage"))
    && Truthy(Field(body, "location"))
  }

  /** The update onboarding sends: every body field, with `isOnboarded` forced to true. */
  function OnboardPatch(body: Document): (patch: Document)
    ensures patch.Keys == body.Keys + {"isOnboarded"}
    ensures patch["isOnboarded"] == Bool(true)
    ensures forall k :: k in body && k != "isOnboarded" ==> patch[k] == body[k]
  {
    body["isOnboarded" := Bool(true)]
  }

  /**
   * What onboarding does for the authenticated user `userId`. A missing
   * record makes the update return null; reading its identifier then throws
   * inside the block that guards the presence upsert, so the handler still
   * answers 200, with a null user.
   */
  function OnboardSpec(users: seq<User>, userId: Id, body: Document, updateOk: bool): (o: Outcome)
    ensures o.res.status == 200 || o.res.status == 400 || o.res.status == 500
    ensures o.res.status != 200 ==> o.users == users
    ensures |o.users| == |users| && o.res.cookie == NoCookie
  {
    if !ProfileComplete(body) then
      Outcome(Response(400, Missing(FieldsRequired, MissingFields(body)), NoCookie), None, users)
    else if !updateOk then Outcome(InternalError, None, users)
    else
      var (updated, after) := ApplyUpdate(users, userId, OnboardPatch(body));
      match updated
      case None => Outcome(Response(200, Wrapped(None), NoCookie), None, users)
      case Some(u) => Outcome(Response(200, Wrapped(Some(u)), NoCookie), Some(PresenceOf(u)), after)
  }

  /**
   * The onboarding handler, changing the directory in place. The outcome of
   * the presence upsert is caught and logged, so it does not affect anything.
   */
  method Onboard(dir: Directory, userId: Id, body: Document, updateOk: bool, upsertOk: bool)
    returns (res: Response, presence: Option<PresenceUser>)
    requires dir.Valid()
    modifies dir
    ensures dir.Valid() && dir.nextId == old(dir.nextId)
    ensures Outcome(res, presence, dir.users) == OnboardSpec(old(dir.users), userId, body, updateOk)
  {
    presence := None;
    if !ProfileComplete(body) {
      res := Response(400, Missing(FieldsRequired, MissingFields(body)), NoCookie);
      return;
    }
    if !updateOk {
      res := InternalError;
      return;
    }
    var updated := dir.UpdateById(userId, OnboardPatch(body));
    match updated
    case None =>
      res := Response(200, Wrapped(None), NoCookie);
    case Some(u) =>
      // the upsert is attempted; its failure (upsertOk false) is swallowed
      presence := Some(PresenceOf(u));
      res := Response(200, Wrapped(Some(u)), NoCookie);
  }

  /** The `missingFields` list is empty exactly when the profile is complete. */
  lemma {:induction false} MissingFieldsEmptyIff(body: Document)
    ensures MissingFields(body) == [] <==> ProfileComplete(body)
  {
    if !ProfileComplete(body) {
      var k :| k in ProfileFields && !Truthy(Field(body, k));
      assert k in MissingFields(body);
    }
  }

  /** An example: an empty bio and a missing location are reported in that order. */
  lemma MissingFieldsExample()
    ensures MissingFields(map["fullName" := Str("A B"), "bio" := Str(""), "nativeLanguage" := Str("en"),
                              "learningLanguage" := Str("fr")]) == ["bio", "location"]
  {
  }

  /** Onboarding answers 400 exactly when a required field is falsy, listing them; nothing changes then. */
  lemma OnboardRejectsIncomplete(users: seq<User>, userId: Id, body: Document, updateOk: bool)
    ensures var o := OnboardSpec(users, userId, body, updateOk);
      o.res.status == 400 <==> !ProfileComplete(body)
    ensures var o := OnboardSpec(users, userId, body, updateOk);
      o.res.status == 400 ==>
        && o.users == users
        && o.res.json == Missing(FieldsRequired, MissingFields(body))
        && MissingFields(body) != []
  {
    MissingFieldsEmptyIff(body);
  }

  /**
   * On success every body field overwrites the record, `isOnboarded` becomes
   * true whatever the body sent, fields the body does not name keep their
   * values, and no other record changes.
   */
  lemma OnboardMergesBody(users: seq<User>, userId: Id, body: Document)
    requires ProfileComplete(body)
    requires FindById(users, userId).Some?
    ensures var o := OnboardSpec(users, userId, body, true);
      var i := FindById(users, userId).value;
      var u := o.users[i];
      && o.res == Response(200, Wrapped(Some(u)), NoCookie)
      && u.id == userId
      && u.doc["isOnboarded"] == Bool(true)
      && (forall k :: k in body && k != "isOnboarded" ==> k in u.doc && u.doc[k] == body[k])
      && (forall k :: k in users[i].doc && k !in body && k != "isOnboarded" ==> k in u.doc && u.doc[k] == users[i].doc[k])
      && (forall j :: 0 <= j < |users| && j != i ==> o.users[j] == users[j])
      && o.presence == Some(PresenceUser(userId, body["fullName"], Or(Field(u.doc, "profilePic"), Str(""))))
  {
  }

  /** A failed update of a complete profile is answered 500, without an upsert, and nothing changes. */
  lemma OnboardUpdateFailure(users: seq<User>, userId: Id, body: Document)
    requires ProfileComplete(body)
    ensures OnboardSpec(users, userId, body, false) == Outcome(InternalError, None, users)
  {
  }

  /** Onboarding a user the directory no longer holds answers 200 with a null user and changes nothing. */
  lemma OnboardMissingUser(users: seq<User>, userId: Id, body: Document)
    requires ProfileComplete(body)
    requires forall j :: 0 <= j < |users| ==> users[j].id != userId
    ensures OnboardSpec(users, userId, body, true) == Outcome(Response(200, Wrapped(None), NoCookie), None, users)
  {
  }
}
