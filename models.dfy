/** The two collections the authentication layer reads and writes, with the
    writes the User schema constrains: creating a user, saving a changed user,
    and the unvalidated `findOneAndUpdate` on a user. Ids are positions. */
module Models {
  import opened Wrappers
  import opened Errors
  import opened UserSchema
  import opened SessionSchema

  predicate TablesValid(users: seq<User>, sessions: seq<Session>) {
    UsersValid(users) && SessionsValid(sessions, |users|)
  }

  class Database {
    var users: seq<User>
    var sessions: seq<Session>
    /** bcrypt's `hash(password, 10)`, as the pre-save hook calls it. */
    const hash: string -> string

    ghost predicate Valid()
      reads this
    {
      TablesValid(users, sessions)
    }

    constructor (hash: string -> string)
      ensures Valid() && users == [] && sessions == [] && this.hash == hash
    {
      this.hash := hash;
      users := [];
      sessions := [];
    }

    /** The write of a new, already validated user: the pre-save hook hashes a
        password that is set, then the unique indexes accept or refuse it. */
    method Insert(data: NewUser) returns (r: Result<nat, AuthError>)
      requires Valid() && data.fullname != "" && data.email != ""
      modifies this
      ensures Valid() && sessions == old(sessions)
      ensures var u := PreSave(NewRecord(data), data.password.Some?, hash);
        && (r.Success? <==> !ClashesAt(old(users), u, |old(users)|))
        && (r.Success? ==> r.value == |old(users)| && users == old(users) + [u])
        && (r.Failure? ==> r.error == DuplicateKey && users == old(users))
    {
      var u := PreSave(NewRecord(data), data.password.Some?, hash);
      if ClashesAt(users, u, |users|) {
        return Failure(DuplicateKey);
      }
      WriteKeepsValid(users, u, |users|);
      users := users + [u];
      r := Success(|users| - 1);
    }

    /** The write of a new, already validated user under the unique indexes
        as declared, where a missing googleId or appleId counts as a value:
        it succeeds only on an empty table. */
    method InsertAsDeclared(data: NewUser) returns (r: Result<nat, AuthError>)
      requires Valid() && data.fullname != "" && data.email != ""
      modifies this
      ensures Valid() && sessions == old(sessions)
      ensures var u := PreSave(NewRecord(data), data.password.Some?, hash);
        && (r.Success? <==> !ClashesAsDeclared(old(users), u, |old(users)|))
        && (r.Success? ==> r.value == |old(users)| && users == old(users) + [u])
        && (r.Failure? ==> r.error == DuplicateKey && users == old(users))
      ensures |old(users)| >= 1 ==> r == Failure(DuplicateKey) && users == old(users)
    {
      var u := PreSave(NewRecord(data), data.password.Some?, hash);
      if |users| >= 1 {
        NonSparseIndexesAdmitOneUser(users, u);
      }
      if ClashesAsDeclared(users, u, |users|) {
        return Failure(DuplicateKey);
      }
      if ClashesAt(users, u, |users|) {
        SparseClashIsDeclaredClash(users, u, |users|);
      }
      WriteKeepsValid(users, u, |users|);
      users := users + [u];
      r := Success(|users| - 1);
    }

    /** Creating a user under the schema as written: fullname, email
        and password are all required. */
    method CreateUser(data: NewUser) returns (r: Result<nat, AuthError>)
      requires Valid()
      modifies this
      ensures Valid() && sessions == old(sessions)
      ensures !HasRequiredFields(data) ==> r == Failure(ValidationError) && users == old(users)
      ensures HasRequiredFields(data) ==>
        var u := PreSave(NewRecord(data), true, hash);
        && (r.Success? <==> !ClashesAt(old(users), u, |old(users)|))
        && (r.Success? ==> r.value == |old(users)| && users == old(users) + [u])
        && (r.Failure? ==> r.error == DuplicateKey && users == old(users))
    {
      if !HasRequiredFields(data) {
        return Failure(ValidationError);
      }
      r := Insert(data);
    }

    /** Creating a user for an account made from a Google profile,
        under a schema whose password is required only for accounts without a
        googleId. */
    method CreateGoogleUser(data: NewUser) returns (r: Result<nat, AuthError>)
      requires Valid() && data.googleId.Some? && data.password.None?
      modifies this
      ensures Valid() && sessions == old(sessions)
      ensures data.fullname == "" || data.email == "" ==> r == Failure(ValidationError) && users == old(users)
      ensures data.fullname != "" && data.email != "" ==>
        && (r.Success? <==> !ClashesAt(old(users), NewRecord(data), |old(users)|))
        && (r.Success? ==> r.value == |old(users)| && users == old(users) + [NewRecord(data)])
        && (r.Failure? ==> r.error == DuplicateKey && users == old(users))
    {
      if data.fullname == "" || data.email == "" {
        return Failure(ValidationError);
      }
      r := Insert(data);
    }

    /** Saving the user at `id` after the caller changed it to
        `updated`: the required validator on a modified password, the
        pre-save hook, then the unique indexes. */
    method SaveUser(id: nat, updated: User, passwordModified: bool) returns (r: Result<nat, AuthError>)
      requires Valid() && id < |users| && StoredUserValid(updated)
      modifies this
      ensures Valid() && sessions == old(sessions)
      ensures passwordModified && !Present(updated.password) ==> r == Failure(ValidationError) && users == old(users)
      ensures (passwordModified ==> Present(updated.password)) ==>
        var u := PreSave(updated, passwordModified, hash);
        && (r.Success? <==> !ClashesAt(old(users), u, id))
        && (r.Success? ==> r.value == id && users == old(users)[id := u])
        && (r.Failure? ==> r.error == DuplicateKey && users == old(users))
    {
      if passwordModified && !Present(updated.password) {
        return Failure(ValidationError);
      }
      var u := PreSave(updated, passwordModified, hash);
      if ClashesAt(users, u, id) {
        return Failure(DuplicateKey);
      }
      WriteKeepsValid(users, u, id);
      users := users[id := u];
      r := Success(id);
    }

    /** The find-and-update that sets the verified flag of the user with that
        email and returns the updated user: no validators and no save hooks
        run. */
    method MarkEmailVerified(email: string) returns (r: Option<nat>)
      requires Valid()
      modifies this
      ensures Valid() && sessions == old(sessions)
      ensures r == FindByEmail(old(users), email)
      ensures r.None? ==> users == old(users)
      ensures r.Some? ==> users == old(users)[r.value := old(users)[r.value].(isEmailVerified := true)]
    {
      r := FindByEmail(users, email);
      if r.Some? {
        var i := r.value;
        var u := users[i].(isEmailVerified := true);
        assert !ClashesAt(users, u, i);
        WriteKeepsValid(users, u, i);
        users := users[i := u];
      }
    }
  }
}
