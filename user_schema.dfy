/** The User collection's schema: the record, its required, unique and
    default constraints, the pre-save hook that hashes a changed password, and
    `comparePassword`. bcrypt's `hash` and `compare` are foreign and enter as
    function parameters. */
module UserSchema {
  import opened Wrappers
  import opened Errors

  /** A stored user. `password` holds the bcrypt hash; it is `None` only for an
      account that never had one. */
  datatype User = User(
    fullname: string,
    email: string,
    password: Option<string>,
    googleId: Option<string>,
    isEmailVerified: bool)

  /** The fields a caller passes when creating a user. */
  datatype NewUser = NewUser(fullname: string, email: string, password: Option<string>, googleId: Option<string>)

  /** A `required` string path is satisfied by a present, non-empty value. */
  predicate Present(s: Option<string>) {
    s.Some? && s.value != ""
  }

  /** The schema's `required` validators: fullname, email and password. */
  predicate HasRequiredFields(data: NewUser) {
    data.fullname != "" && data.email != "" && Present(data.password)
  }

  /** What every stored user satisfies whichever way it was created: a
      fullname and an email. */
  predicate StoredUserValid(u: User) {
    u.fullname != "" && u.email != ""
  }

  /** The `unique` index on email. */
  predicate UniqueEmails(users: seq<User>) {
    forall i, j :: 0 <= i < j < |users| ==> users[i].email != users[j].email
  }

  /** The `unique` index on googleId, over the users that have one. */
  predicate UniqueGoogleIds(users: seq<User>) {
    forall i, j :: 0 <= i < j < |users| && users[i].googleId.Some? ==> users[i].googleId != users[j].googleId
  }

  predicate UsersValid(users: seq<User>) {
    && UniqueEmails(users)
    && UniqueGoogleIds(users)
    && (forall i :: 0 <= i < |users| ==> StoredUserValid(users[i]))
  }

  /** Whether a write of `u` at position `at` (|users| for an insert) would be
      refused by one of the unique indexes. */
  predicate ClashesAt(users: seq<User>, u: User, at: nat) {
    exists j :: 0 <= j < |users| && j != at &&
      (users[j].email == u.email || (u.googleId.Some? && users[j].googleId == u.googleId))
  }

  // The indexes as declared: `googleId` and `appleId` are unique but not
  // sparse, so a document lacking the field is indexed under null, and two
  // documents lacking it clash. No flow ever sets `appleId`.

  /** Two values of a non-sparse unique index clash when they are equal,
      including when both are missing. */
  predicate NonSparseEqual(a: Option<string>, b: Option<string>) {
    a == b
  }

  /** The `appleId` every user has: none. */
  const NoAppleId: Option<string> := None

  /** Whether the indexes as declared refuse a write of `u` at `at` (an
      insert when `at == |users|`). Every document is indexed under a null
      `appleId`, so the last disjunct always holds: this is the same as
      "some other record exists". */
  predicate ClashesAsDeclared(users: seq<User>, u: User, at: nat) {
    exists j :: 0 <= j < |users| && j != at &&
      (users[j].email == u.email || NonSparseEqual(users[j].googleId, u.googleId) || NonSparseEqual(NoAppleId, NoAppleId))
  }

  /** As declared, the indexes refuse every user after the first: any two
      users clash on their missing `appleId`. */
  lemma NonSparseIndexesAdmitOneUser(users: seq<User>, u: User)
    requires |users| >= 1
    ensures ClashesAsDeclared(users, u, |users|)
  {
    assert NonSparseEqual(NoAppleId, NoAppleId);
    assert users[0].email == u.email || NonSparseEqual(users[0].googleId, u.googleId) || NonSparseEqual(NoAppleId, NoAppleId);
  }

  /** Every clash of the sparse reading is a clash as declared. */
  lemma SparseClashIsDeclaredClash(users: seq<User>, u: User, at: nat)
    requires ClashesAt(users, u, at)
    ensures ClashesAsDeclared(users, u, at)
  {
    var j :| 0 <= j < |users| && j != at &&
      (users[j].email == u.email || (u.googleId.Some? && users[j].googleId == u.googleId));
    assert users[j].email == u.email || NonSparseEqual(users[j].googleId, u.googleId);
  }

  /** With sparse indexes a second user with another email and no googleId is
      admitted, where the indexes as declared refuse it. */
  lemma SecondUserAdmittedWhenSparse(first: User, u: User)
    requires first.email != u.email && u.googleId.None?
    ensures !ClashesAt([first], u, 1)
    ensures ClashesAsDeclared([first], u, 1)
  {
    NonSparseIndexesAdmitOneUser([first], u);
  }

  /** Writing `u` at `at` keeps the table valid exactly when nothing clashes. */
  lemma {:induction false} WriteKeepsValid(users: seq<User>, u: User, at: nat)
    requires UsersValid(users) && at <= |users|
    requires StoredUserValid(u) && !ClashesAt(users, u, at)
    ensures at < |users| ==> UsersValid(users[at := u])
    ensures at == |users| ==> UsersValid(users + [u])
  {
    var t := if at < |users| then users[at := u] else users + [u];
    forall i, j | 0 <= i < j < |t|
      ensures t[i].email != t[j].email
      ensures t[i].googleId.Some? ==> t[i].googleId != t[j].googleId
    {
      if i == at {
        assert j != at && t[j] == users[j];
      } else if j == at {
        assert i != at && t[i] == users[i];
      } else {
        assert t[i] == users[i] && t[j] == users[j];
      }
    }
  }

  /** The lookup of a user by email: with unique emails, the only user with
      that email. */
  function FindByEmail(users: seq<User>, email: string): (r: Option<nat>)
    ensures r.Some? ==> r.value < |users| && users[r.value].email == email
    ensures r.None? ==> forall i :: 0 <= i < |users| ==> users[i].email != email
  {
    FindFirst(users, (u: User) => u.email == email)
  }

  lemma FindByEmailUnique(users: seq<User>, email: string, i: nat)
    requires UniqueEmails(users) && i < |users| && users[i].email == email
    ensures FindByEmail(users, email) == Some(i)
  {
    var r := FindByEmail(users, email);
    assert r.Some?;
  }

  /** The document a query returns: `password` has `select: false`, so it is
      left out unless asked for. */
  function Projected(u: User): (d: User)
    ensures d.password.None? && d.(password := u.password) == u
  {
    u.(password := None)
  }

  /** The pre-save hook: a password that was modified is replaced by its hash
      before the write; otherwise the document is written as it is. */
  function PreSave(u: User, passwordModified: bool, hash: string -> string): (r: User)
    requires passwordModified ==> u.password.Some?
    ensures r.(password := u.password) == u
    ensures !passwordModified ==> r == u
    ensures passwordModified ==> r.password == Some(hash(u.password.value))
  {
    if !passwordModified then u
    else u.(password := Some(hash(u.password.value)))
  }

  /** Saving a document whose password was not touched leaves the stored hash
      as it was: the hash is never hashed twice. */
  lemma SaveUnmodifiedKeepsHash(u: User, hash: string -> string)
    ensures PreSave(u, false, hash).password == u.password
  {
  }

  /** The record a create writes: `isEmailVerified` defaults to false. */
  function NewRecord(data: NewUser): (u: User)
    ensures u.isEmailVerified == false
    ensures u.fullname == data.fullname && u.email == data.email
    ensures u.password == data.password && u.googleId == data.googleId
  {
    User(data.fullname, data.email, data.password, data.googleId, false)
  }

  /** `comparePassword`: bcrypt's `compare(candidate, storedHash)` on the
      document's own password field. bcrypt rejects when that field is absent. */
  function ComparePassword(doc: User, candidate: string, compare: (string, string) -> bool): (r: Result<bool, AuthError>)
    ensures doc.password.None? <==> r == Failure(HashArgumentsRequired)
    ensures doc.password.Some? ==> r == Success(compare(candidate, doc.password.value))
  {
    match doc.password
    case None => Failure(HashArgumentsRequired)
    case Some(stored) => Success(compare(candidate, stored))
  }
}
