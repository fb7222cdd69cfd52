/**
 * The user directory that the handlers query and update. Records are kept
 * in insertion order, so a query for one record returns the first match,
 * as an unsorted `findOne` does. Each record has an identifier assigned on
 * creation and a document of named fields (fullName, email, password,
 * profilePic, and whatever an onboarding request merges in).
 */
module Users {
  import opened JsValues

  type Id = nat

  datatype User = User(id: Id, doc: Document)

  /** The query `{ email }` matches a record whose email field equals `email`. */
  predicate HasEmail(u: User, email: Value)
  {
    "email" in u.doc && u.doc["email"] == email
  }

  /** `findOne({ email })`: the position of the first matching record, if any. */
  function FindByEmail(users: seq<User>, email: Value): (r: Option<nat>)
    ensures r.Some? ==> r.value < |users| && HasEmail(users[r.value], email)
    ensures r.Some? ==> forall j :: 0 <= j < r.value ==> !HasEmail(users[j], email)
    ensures r.None? ==> forall j :: 0 <= j < |users| ==> !HasEmail(users[j], email)
  {
    if users == [] then None
    else if HasEmail(users[0], email) then Some(0)
    else match FindByEmail(users[1..], email)
      case None => None
      case Some(k) => Some(k + 1)
  }

  /** `findById(id)`: the position of the record with that identifier, if any. */
  function FindById(users: seq<User>, id: Id): (r: Option<nat>)
    ensures r.Some? ==> r.value < |users| && users[r.value].id == id
    ensures r.Some? ==> forall j :: 0 <= j < r.value ==> users[j].id != id
    ensures r.None? ==> forall j :: 0 <= j < |users| ==> users[j].id != id
  {
    if users == [] then None
    else if users[0].id == id then Some(0)
    else match FindById(users[1..], id)
      case None => None
      case Some(k) => Some(k + 1)
  }

  /** `.select("-password")`: the record with its password field projected away. */
  function WithoutPassword(u: User): (r: User)
    ensures r.id == u.id
    ensures r.doc.Keys == u.doc.Keys - {"password"}
    ensures forall k :: k in r.doc ==> r.doc[k] == u.doc[k]
  {
    User(u.id, u.doc - {"password"})
  }

  /** A record appended after records that all miss the email is the first match. */
  lemma {:induction false} FindByEmailAppend(users: seq<User>, u: User, email: Value)
    requires FindByEmail(users, email).None?
    requires HasEmail(u, email)
    ensures FindByEmail(users + [u], email) == Some(|users|)
  {
    if users != [] {
      assert (users + [u])[1..] == users[1..] + [u];
      FindByEmailAppend(users[1..], u, email);
    }
  }

  /** A record appended with a fresh identifier is found under it. */
  lemma {:induction false} FindByIdAppend(users: seq<User>, u: User)
    requires FindById(users, u.id).None?
    ensures FindById(users + [u], u.id) == Some(|users|)
  {
    if users != [] {
      assert (users + [u])[1..] == users[1..] + [u];
      FindByIdAppend(users[1..], u);
    }
  }

  /** Identifiers are pairwise distinct. */
  ghost predicate IdsDistinct(users: seq<User>)
  {
    forall i, j :: 0 <= i < j < |users| ==> users[i].id != users[j].id
  }

  /** The record that `findById` reaches is the only one with that identifier. */
  lemma FindByIdUnique(users: seq<User>, i: nat)
    requires IdsDistinct(users)
    requires i < |users|
    ensures FindById(users, users[i].id) == Some(i)
  {
  }

  /**
   * The directory as a store whose contents the handlers change in place:
   * `save` appends a record, `findByIdAndUpdate` rewrites one. `nextId`
   * stands for the generator of fresh identifiers.
   */
  class Directory {
    var users: seq<User>
    var nextId: Id

    ghost predicate Valid()
      reads this
    {
      IdsDistinct(users) && forall i :: 0 <= i < |users| ==> users[i].id < nextId
    }

    constructor ()
      ensures Valid()
      ensures users == [] && nextId == 0
    {
      users := [];
      nextId := 0;
    }

    /** The identifier a new record receives when it is constructed. */
    method NewId() returns (id: Id)
      requires Valid()
      modifies this
      ensures Valid()
      ensures id == old(nextId) && nextId == id + 1 && users == old(users)
      ensures FindById(users, id).None?
    {
      id := nextId;
      nextId := nextId + 1;
    }

    /** `save()` of a new record whose identifier is not yet in use. */
    method Insert(u: User)
      requires Valid()
      requires u.id < nextId && FindById(users, u.id).None?
      modifies this
      ensures Valid()
      ensures users == old(users) + [u] && nextId == old(nextId)
    {
      users := users + [u];
    }

    /**
     * `findByIdAndUpdate(id, patch, { new: true })`: sets every field of
     * `patch` on the record with identifier `id` and returns the updated
     * record, or returns nothing when no record has that identifier.
     */
    method UpdateById(id: Id, patch: Document) returns (updated: Option<User>)
      requires Valid()
      modifies this
      ensures Valid() && nextId == old(nextId)
      ensures (updated, users) == ApplyUpdate(old(users), id, patch)
    {
      var found := FindById(users, id);
      match found
      case None =>
        updated := None;
      case Some(i) =>
        var u := User(id, users[i].doc + patch);
        users := users[i := u];
        updated := Some(u);
    }
  }

  /** What an update by identifier does to the directory, and the record it returns. */
  function ApplyUpdate(users: seq<User>, id: Id, patch: Document): (r: (Option<User>, seq<User>))
    ensures |r.1| == |users|
    ensures r.0.None? <==> FindById(users, id).None?
    ensures r.0.None? ==> r.1 == users
    ensures r.0.Some? ==> r.0.value.id == id && r.0.value.doc.Keys == FindUser(users, id).doc.Keys + patch.Keys
    ensures r.0.Some? ==> forall k :: k in patch ==> r.0.value.doc[k] == patch[k]
    ensures r.0.Some? ==> forall k :: k in r.0.value.doc && k !in patch ==> r.0.value.doc[k] == FindUser(users, id).doc[k]
    ensures forall j :: 0 <= j < |users| && users[j].id != id ==> r.1[j] == users[j]
    ensures r.0.Some? ==> FindById(r.1, id) == FindById(users, id) && r.1[FindById(users, id).value] == r.0.value
  {
    match FindById(users, id)
    case None => (None, users)
    case Some(i) =>
      var u := User(id, users[i].doc + patch);
      FindByIdAfterReplace(users, i, u, id);
      (Some(u), users[i := u])
  }

  /** The record with identifier `id`, when there is one. */
  function FindUser(users: seq<User>, id: Id): (u: User)
    requires FindById(users, id).Some?
    ensures u.id == id && u in users
  {
    users[FindById(users, id).value]
  }

  /** Rewriting one record in place keeps every identifier where it was. */
  lemma {:induction false} FindByIdAfterReplace(users: seq<User>, i: nat, u: User, id: Id)
    requires i < |users| && u.id == users[i].id
    ensures FindById(users[i := u], id) == FindById(users, id)
  {
    if users != [] && users[0].id != id {
      if i == 0 {
        assert users[i := u][1..] == users[1..];
      } else {
        assert users[i := u][1..] == users[1..][i - 1 := u];
        FindByIdAfterReplace(users[1..], i - 1, u, id);
      }
    }
  }
}
