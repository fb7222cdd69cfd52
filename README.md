# Connectify authentication, modelled in Dafny

This project models the request-decision logic of Connectify's backend authentication:

- the `signup`, `login`, `logout` and `onboard` handlers;
- the `protectRoute` middleware, which gates authenticated routes.

Each handler is modelled as a map from these inputs:

- the request body, a JSON object whose fields are JavaScript values with JavaScript truthiness;
- the state of the user directory;
- the outcomes of the external collaborators.

It produces:

- an HTTP status;
- a JSON body;
- a cookie write;
- the presence upsert it issued, if any;
- the new directory state.

Modules:

- `JsValues` (`js_values.dfy`) covers the JavaScript semantics the handlers rely on:
  - which values are falsy;
  - `v.length < n` on strings, arrays and everything else;
  - `a || b`;
  - `${n}` for integers, with its inverse.
- `Users` (`users.dfy`) models the user directory:
  - a `Directory` class that holds the records in insertion order and a generator of fresh identifiers;
  - `findOne({ email })` and `findById` as first-match searches;
  - `select("-password")`;
  - `save` and `findByIdAndUpdate` as methods that change the records in place.
- `Http` (`http.dfy`) defines responses, JSON bodies and cookie writes. It also defines the client-side effect of a cookie write, which the session lemmas use.
- `AuthController` (`auth_controller.dfy`) models the four handlers:
  - `Signup` and `Onboard` are methods on the directory. Each is proved equal to a pure outcome function (`SignupSpec`, `OnboardSpec`), and the handler's properties are lemmas about that function.
  - `Login` and `Logout` are functions.
- `ProtectRoute` (`protect_route.dfy`) models the guard:
  - `Authorize` is the decision ladder;
  - `Protect` applies the decision to a `Request` object, setting `req.user`, counting `next()` calls or recording the answer.
- `Sessions` (`sessions.dfy`) connects the pieces:
  - signup followed by login;
  - login followed by the guard;
  - logout followed by the guard;
  - the guard followed by onboarding.

External collaborators are parameters:

- The password hasher is `hash: string -> string` and `compare: (string, string) -> bool`.
- Token signing and verification are `sign: Id -> string` and `verify: string -> Verification`. Verification throws, decodes to a falsy value, or decodes to claims.
- The random avatar draw is `draw` in 0..99.
- The Stream presence upsert, `save` and `findByIdAndUpdate` each either succeed or fail, given as booleans.

The model keeps these behaviours of the code as written:

- The guard answers 400, not a 401-class status, for a missing token, a falsy decode and an unknown user.
- Its 400 bodies use the key `error`, while its 500 body uses `message`.
- Signup enforces a minimum password length of 8 while its message says 6.
- The email-format check tests the regular-expression object instead of the email, so it never rejects.
- Onboarding a user whose record has vanished answers 200 with `user: null`. The `TypeError` raised while building the upsert argument is caught by the block that guards the upsert.
- A signup whose `save` fails answers 500, but it has already written the session cookie for the unsaved identifier.
- Responses carry the full record, password hash included, as the code sends it.

## Model

| member | source | states |
|---|---|---|
| `Users.FindByEmail` | backend/src/controllers/auth.controller.js:27-29 | `findOne({ email })` yields the first record whose email equals the queried value; nothing before it matches; nothing is found only when no record matches |
| `Users.FindById` | backend/src/middleware/protectRoute.js:19-20 | `findById` yields the first record with that identifier, or nothing exactly when no record has it |
| `Users.WithoutPassword` | backend/src/middleware/protectRoute.js:19 | `select("-password")` keeps the identifier and every field except `password`, with the same values |
| `Users.Directory.NewId` | backend/src/controllers/auth.controller.js:39-44 | constructing a record draws an identifier that no stored record has; the records are unchanged |
| `Users.Directory.Insert` | backend/src/controllers/auth.controller.js:56 | `save()` appends exactly the new record and keeps identifiers distinct |
| `Users.Directory.UpdateById` | backend/src/controllers/auth.controller.js:122-125 | `findByIdAndUpdate(..., { new: true })` changes the directory and returns the record exactly as `ApplyUpdate` says |
| `Users.ApplyUpdate` | backend/src/controllers/auth.controller.js:122-125 | an absent identifier gives null and changes nothing; otherwise every patch field is set, the other fields keep their values, only that record changes, and the updated record is returned |
| `JsValues.Decimal` | backend/src/controllers/auth.controller.js:37 | `${idx}` is a non-empty string of digits without a leading zero |
| `JsValues.DecimalRoundTrip` | backend/src/controllers/auth.controller.js:37 | reading the numeral `${n}` back gives `n` |
| `JsValues.LengthBelow` | backend/src/controllers/auth.controller.js:17 | `password.length < 8` can only hold for a string or an array; for a string it holds exactly when it has fewer than 8 characters, and on any other value the comparison with `undefined` is false |
| `AuthController.AvatarUrlRoundTrip` | backend/src/controllers/auth.controller.js:36-37 | the avatar URL has the `https://avatar.iran.liara.run/public/{idx}.png` shape, and the index read back from it is the one written |
| `AuthController.AvatarUrl` | backend/src/controllers/auth.controller.js:37 | the avatar URL starts with `https://avatar.iran.liara.run/public/`, ends with `.png`, and has something between them |
| `AuthController.NewUser` | backend/src/controllers/auth.controller.js:39-44 | the new record has the given id and exactly the fields fullName, email, password and profilePic: the submitted email and name, the hashed password, and an avatar URL whose index reads back as the one drawn |
| `AuthController.PresenceOf` | backend/src/controllers/auth.controller.js:46-50 | the upsert argument carries the record's id and fullName, and its profilePic when truthy, otherwise "" |
| `AuthController.SignupCheck` | backend/src/controllers/auth.controller.js:13-31 | validation passes exactly when email, password and fullName are truthy, the password is not shorter than 8, and no record has the email; the email-format step plays no part; every rejection is a 400 without a cookie |
| `AuthController.SignupSpec` | backend/src/controllers/auth.controller.js:9-64 | the status is 201, 400 or 500; anything but 201 leaves the directory unchanged; 201 appends exactly one record and sets the session cookie; a session cookie is only ever for the new identifier, after the upsert was issued |
| `AuthController.Signup` | backend/src/controllers/auth.controller.js:9-64 | the handler's response, presence upsert and new directory are those of `SignupSpec`; an identifier is consumed only once validation and hashing pass; the directory stays valid |
| `AuthController.SignupRequiresAllFields` | backend/src/controllers/auth.controller.js:13-15 | a falsy email, password or fullName gives 400 "All the fields are required" with no upsert and no change |
| `AuthController.SignupRejectsShortPassword` | backend/src/controllers/auth.controller.js:17-19 | a string password of length 1 to 7 gives 400 "Password must be at least 6 characters long", lengths 6 and 7 included, and nothing changes |
| `AuthController.SignupNeverRejectsEmailFormat` | backend/src/controllers/auth.controller.js:21-25 | no input is answered "Invalid email format" |
| `AuthController.SignupRejectsTakenEmail` | backend/src/controllers/auth.controller.js:27-31 | once the earlier checks pass, an email present in the directory gives 400 "Email already exists, please use a different one" and nothing changes |
| `AuthController.SignupSuccess` | backend/src/controllers/auth.controller.js:33-58 | 201 exactly when validation passes, the password is a string, and the upsert and save succeed. The directory then gains one record, the only one with that email. The record holds the hashed password, the name and an avatar with index draw+1. The response carries it with the session cookie. The upsert carried the new id, name and image |
| `AuthController.SignupPresenceFailure` | backend/src/controllers/auth.controller.js:46-62 | a failed presence upsert gives 500 with no cookie, and nothing is saved |
| `AuthController.SignupNonStringPasswordIsServerError` | backend/src/controllers/auth.controller.js:33-34 | a password that passes every check but is not a string makes bcrypt's hash throw: 500, no upsert, nothing saved |
| `AuthController.SignupSaveFailure` | backend/src/controllers/auth.controller.js:54-62 | a failed save gives 500 and stores no record, yet the session cookie for the unsaved identifier is set |
| `AuthController.StoredHash` | backend/src/controllers/auth.controller.js:79 | `user?.password || ""`: the stored password when it is truthy, otherwise the empty string; never undefined or null |
| `AuthController.Login` | backend/src/controllers/auth.controller.js:66-92 | the status is 200, 400 or 500; a falsy email or password gives 400 "All fields are required"; 200 exactly when a session cookie is set, and then the answer and the cookie are for the first record with the submitted email, the same one whose hash was compared; the directory is only read |
| `AuthController.LoginHidesWhichCredentialFailed` | backend/src/controllers/auth.controller.js:74-82 | an unknown email and a wrong password both give the identical 400 "Invalid email or password" |
| `AuthController.LoginSucceedsIff` | backend/src/controllers/auth.controller.js:69-86 | 200 exactly when the email is truthy, the password is a non-empty string, a record has the email and compare accepts the password against the stored hash (or "" when that is falsy) |
| `AuthController.LoginNonStringPasswordIsServerError` | backend/src/controllers/auth.controller.js:79 | a known email with a truthy password that is not a string makes bcrypt's compare throw: 500, not 400 |
| `AuthController.Logout` | backend/src/controllers/auth.controller.js:94-102 | logout takes no input, always answers 200 "Logged out successfully" and writes cookie `jwt` = "" with maxAge 0 |
| `AuthController.FalsyFields` | backend/src/controllers/auth.controller.js:112-118 | the result holds exactly the listed names whose body field is falsy, in list order |
| `AuthController.MissingFields` | backend/src/controllers/auth.controller.js:112-118 | `missingFields` holds exactly the falsy required fields, in the order fullName, bio, nativeLanguage, learningLanguage, location |
| `AuthController.MissingFieldsEmptyIff` | backend/src/controllers/auth.controller.js:109-118 | `missingFields` is empty exactly when all five required fields are truthy |
| `AuthController.MissingFieldsExample` | backend/src/controllers/auth.controller.js:112-118 | an empty bio and an absent location are listed as ["bio", "location"] |
| `AuthController.ProfileComplete` | backend/src/controllers/auth.controller.js:109 | the profile is complete exactly when every one of the five required fields is truthy |
| `AuthController.OnboardPatch` | backend/src/controllers/auth.controller.js:122-125 | the update holds every body field with its value, plus `isOnboarded` set to true even if the body sent another value |
| `AuthController.OnboardSpec` | backend/src/controllers/auth.controller.js:104-147 | the status is 200, 400 or 500, no cookie is written, the directory keeps its size, and anything but 200 leaves it unchanged |
| `AuthController.Onboard` | backend/src/controllers/auth.controller.js:104-147 | the handler's response, presence upsert and new directory are those of `OnboardSpec` whatever the upsert's outcome; the directory stays valid |
| `AuthController.OnboardRejectsIncomplete` | backend/src/controllers/auth.controller.js:109-120 | 400 exactly when a required field is falsy, with message "All fields are required" and the non-empty `missingFields`; nothing changes |
| `AuthController.OnboardMergesBody` | backend/src/controllers/auth.controller.js:122-138 | on success every body field overwrites the record, `isOnboarded` is true even if the body sent false, and other fields and other records are unchanged. The answer is 200 with the updated record. The upsert carries its id, name and image |
| `AuthController.OnboardMissingUser` | backend/src/controllers/auth.controller.js:122-138 | when no record has the identifier, the answer is 200 with a null user, no upsert, and no change |
| `AuthController.OnboardUpdateFailure` | backend/src/controllers/auth.controller.js:122-143 | a failed update of a complete profile gives 500 "Internal server error", no upsert and no change |
| `ProtectRoute.Authorize` | backend/src/middleware/protectRoute.js:7-31 | an admitted user carries no password and exists in the directory; every rejection is a 400 or the generic 500, without a cookie |
| `ProtectRoute.JwtCookie` | backend/src/middleware/protectRoute.js:9 | `req.cookies.jwt` is present exactly when the request carries a `jwt` cookie, and is its value |
| `ProtectRoute.NoTokenRejected` | backend/src/middleware/protectRoute.js:9-12 | a missing or empty `jwt` cookie gives 400 "User not authorized" |
| `ProtectRoute.ThrowingVerifyIsServerError` | backend/src/middleware/protectRoute.js:14-30 | a token whose verification throws gives 500 "Internal server error", not 400 |
| `ProtectRoute.FalsyDecodeRejected` | backend/src/middleware/protectRoute.js:15-17 | a falsy decode gives 400 "Invalid token" |
| `ProtectRoute.UnknownUserRejected` | backend/src/middleware/protectRoute.js:19-22 | claims without a userId, or naming no record, give 400 "User not found" |
| `ProtectRoute.AdmitIffAuthenticated` | backend/src/middleware/protectRoute.js:19-25 | the guard admits exactly when the token is non-empty and verifies to the id of a stored record; the attached user is that record without its password |
| `ProtectRoute.Protect` | backend/src/middleware/protectRoute.js:7-31 | on admission `req.user` is set and `next()` is called exactly once; on rejection `req.user` stays as it was, `next()` is not called and the answer is sent; the directory is not modified |
| `Sessions.SignupThenLogin` | backend/src/controllers/auth.controller.js:33-86 | if hashing round-trips, then after a successful signup, logging in with the same body gives 200, the new record and its session cookie |
| `Sessions.SignupThenAuthorized` | backend/src/middleware/protectRoute.js:9-25 | with a fresh identifier and tokens that verify, the cookie written by a successful signup gets the next request through the guard, carrying the new record without its password |
| `Sessions.LoginThenAuthorized` | backend/src/middleware/protectRoute.js:9-25 | with distinct identifiers, the cookie written by a successful login gets the next request through the guard, carrying the logged-in record without its password |
| `Sessions.LogoutThenRejected` | backend/src/middleware/protectRoute.js:9-12 | after logout's cookie write the client sends no `jwt`, and the guard answers 400 "User not authorized" |
| `Sessions.AdmittedUserOnboards` | backend/src/controllers/auth.controller.js:104-125 | a complete onboarding for a user the guard admitted succeeds and sets `isOnboarded` to true |

## Left out

- Password hashing is the parameter pair `hash` / `compare`. Salting, the cost factor 10 and constant-time comparison are not modelled, and no cryptographic property is claimed. The hasher's only modelled behaviour is that bcrypt rejects arguments that are not strings, which the handlers answer with 500.
- Token signing and verification are parameters. Token expiry and the secret from the environment are not modelled. `generateToken` is the cookie write `SessionToken(id)`; its cookie options (httpOnly, sameSite, secure, maxAge) are not modelled, because `lib/generateToken.js` is not part of this model. The same holds for a `generateToken` that throws when the secret is missing.
- Mongoose schema behaviour is not modelled, because `models/User.model.js` is not part of this model. This covers:
  - schema defaults such as `bio: ""` and `isOnboarded: false`;
  - casting of values to the schema's types;
  - strict mode dropping unknown fields;
  - validation;
  - a unique index on email.
  An onboarding body can therefore set any field, including `email` and `password`.
- Failures of directory reads (`findOne`, `findById` throwing) are not modelled; only the writes `save` and `findByIdAndUpdate` can fail.
- Identifiers are natural numbers. An ObjectId cast error for a malformed `userId` claim, which would give 500, is not modelled.
- A body key `_id` in an onboarding request is treated as an ordinary field. The record's identifier is kept apart and never changes.
- Queries match by plain equality. Object-valued emails used as MongoDB query operators (`{ "$ne": null }`) are not modelled.
- `Math.random()` is replaced by the input `draw` in 0..99.
- JSON numbers are integers; fractions and `NaN` are not modelled.
- Strings are sequences of Unicode scalar values. JavaScript counts `length` in UTF-16 code units, so passwords with characters outside the Basic Multilingual Plane are measured differently.
- Plain objects never have a `length` in this model. An object with a `length` property is not modelled.
- Concurrency is not modelled: `async`/`await` interleaving and the check-then-insert race between two signups with the same email.
- `console.log`, Express routing and the `res` object beyond status, JSON body and one cookie write are not modelled.
- Logout: the `catch` branch answering 500 is not modelled, because writing a cookie and sending JSON cannot fail in this model.
