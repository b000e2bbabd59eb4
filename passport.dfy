/** The two passport strategies: the JWT strategy (where a token is read
    from, and the session check its verify callback makes) and the Google
    token strategy (its client-id check and the account-linking callback).
    Checking a JWT's signature and expiry, and verifying a Google token, are
    done by libraries before these callbacks run and are not modelled. */
module Passport {
  import opened Wrappers
  import opened Errors
  import opened UserSchema
  import opened SessionSchema
  import opened Models
  import opened Auth

  // ---------------------------------------------------------------------
  // JWT strategy

  /** The secret the JWT strategy is configured with: setup fails without
      one. */
  function StrategySecret(secret: Option<string>): (r: Result<string, AuthError>)
    ensures r.Failure? <==> !SecretSet(secret)
    ensures r.Failure? ==> r.error == JwtSecretNotSet
    ensures r.Success? ==> Some(r.value) == secret && r.value != ""
  {
    if SecretSet(secret) then Success(secret.value) else Failure(JwtSecretNotSet)
  }

  /** What a request offers: its parsed cookies, if any, and the token of an
      `Authorization: Bearer` header, if any. */
  datatype Request = Request(cookies: Option<map<string, string>>, bearer: Option<string>)

  /** The `token` cookie, when the request has cookies and that one. */
  function CookieToken(req: Request): Option<string> {
    if req.cookies.Some? && "token" in req.cookies.value then Some(req.cookies.value["token"]) else None
  }

  /** `jwtFromRequest`: a non-empty `token` cookie wins; otherwise the bearer
      token is used, whatever the cookie held. */
  function JwtFromRequest(req: Request): (token: Option<string>)
    ensures CookieToken(req).Some? && CookieToken(req).value != "" ==> token == CookieToken(req)
    ensures CookieToken(req).None? || CookieToken(req).value == "" ==> token == req.bearer
    ensures token.Some? ==> token == CookieToken(req) || token == req.bearer
  {
    var cookie := CookieToken(req);
    if cookie.Some? && cookie.value != "" then cookie else req.bearer
  }

  /** The JWT verify callback's outcome: a user (carrying the matched
      session's id), no user and no error, or an error. */
  datatype JwtVerdict = Authenticated(user: User, userId: nat, sessionId: nat) | NoUser | Rejected(error: AuthError)

  /** The JWT verify callback on a payload whose signature has been checked:
      an unknown user id is "no user"; a known one is accepted exactly when
      the payload's session exists, belongs to that user and is still valid,
      and is otherwise refused with "Session not found". */
  function VerifyJwtPayload(users: seq<User>, sessions: seq<Session>, p: JwtPayload): (v: JwtVerdict)
    ensures v == NoUser <==> p.id >= |users|
    ensures v == Rejected(SessionNotFound) <==> p.id < |users| && !IsLive(sessions, p.sessionId, p.id)
    ensures v.Authenticated? <==> p.id < |users| && IsLive(sessions, p.sessionId, p.id)
    ensures v.Authenticated? ==>
      v.user == Projected(users[p.id]) && v.userId == p.id && v.sessionId == p.sessionId
  {
    if p.id < |users| then
      if IsLive(sessions, p.sessionId, p.id) then Authenticated(Projected(users[p.id]), p.id, p.sessionId)
      else Rejected(SessionNotFound)
    else NoUser
  }

  /** A token `generateToken` signs for a known user is accepted with the
      session it created; once that session is logged out the same token is
      refused, while logging out any other session leaves it accepted. */
  lemma IssuedTokenLifecycle(users: seq<User>, sessions: seq<Session>, userId: nat, now: int, secret: string,
                             logout: nat, later: int)
    requires userId < |users|
    ensures var live := sessions + [NewSession(userId, now)];
      var p := TokenFor(users[userId], userId, |sessions|, secret).payload;
      && VerifyJwtPayload(users, live, p) == Authenticated(Projected(users[userId]), userId, |sessions|)
      && VerifyJwtPayload(users, Invalidate(live, |sessions|, later), p) == Rejected(SessionNotFound)
      && (logout != |sessions| ==>
            VerifyJwtPayload(users, Invalidate(live, logout, later), p) == VerifyJwtPayload(users, live, p))
  {
    var live := sessions + [NewSession(userId, now)];
    var p := TokenFor(users[userId], userId, |sessions|, secret).payload;
    assert live[|sessions|] == NewSession(userId, now);
    assert IsLive(live, |sessions|, userId);
    InvalidateEffect(live, |sessions|, later, |sessions|, userId);
    InvalidateEffect(live, logout, later, |sessions|, userId);
  }

  /** A token that names another user's session is refused, even while that
      session is live. */
  lemma ForeignSessionRejected(users: seq<User>, sessions: seq<Session>, p: JwtPayload)
    requires p.id < |users| && p.sessionId < |sessions| && sessions[p.sessionId].userId != p.id
    ensures VerifyJwtPayload(users, sessions, p) == Rejected(SessionNotFound)
  {
  }

  // ---------------------------------------------------------------------
  // Google token strategy: setup

  /** `[...].filter(Boolean)` on string settings: the ones set to a non-empty
      value. */
  function PresentIds(ids: seq<Option<string>>): (r: seq<string>)
    ensures forall x :: x in r <==> Some(x) in ids && x != ""
    ensures |r| <= |ids|
  {
    if ids == [] then []
    else
      var rest := PresentIds(ids[1..]);
      assert ids == [ids[0]] + ids[1..];
      if Present(ids[0]) then [ids[0].value] + rest else rest
  }

  /** The client ids the Google strategy accepts tokens for: the Android, iOS
      and web ids that are set. Setup fails when none is. */
  function GoogleClientIds(android: Option<string>, ios: Option<string>, web: Option<string>)
    : (r: Result<seq<string>, AuthError>)
    ensures r.Failure? <==> !Present(android) && !Present(ios) && !Present(web)
    ensures r.Failure? ==> r.error == NoGoogleClientId
    ensures r.Success? ==> 1 <= |r.value| <= 3
    ensures r.Success? ==> forall x :: x in r.value <==> x != "" && (Some(x) == android || Some(x) == ios || Some(x) == web)
  {
    var ids := PresentIds([android, ios, web]);
    assert Present(android) ==> android.value in ids;
    assert Present(ios) ==> ios.value in ids;
    assert Present(web) ==> web.value in ids;
    if |ids| == 0 then
      Failure(NoGoogleClientId)
    else
      assert ids[0] in ids;
      Success(ids)
  }

  // ---------------------------------------------------------------------
  // Google token strategy: the verify callback

  /** The parts of a Google profile the callback reads. */
  datatype Profile = Profile(id: string, displayName: string, emails: Option<seq<string>>)

  /** The profile's first email, when the profile lists emails; a missing
      list or an empty first email is "No email found". A list that is
      present but empty has no first element, and reading it fails. */
  function ProfileEmail(p: Profile): (r: Result<string, AuthError>)
    ensures r == Failure(ProfileEmailsEmpty) <==> p.emails == Some([])
    ensures r == Failure(NoEmailFound) <==> p.emails.None? || (p.emails.value != [] && p.emails.value[0] == "")
    ensures r.Success? <==> p.emails.Some? && p.emails.value != [] && p.emails.value[0] != ""
    ensures r.Success? ==> r.value == p.emails.value[0]
  {
    match p.emails
    case None => Failure(NoEmailFound)
    case Some(emails) =>
      if emails == [] then Failure(ProfileEmailsEmpty)
      else if emails[0] == "" then Failure(NoEmailFound)
      else Success(emails[0])
  }

  /** The lookup of a user whose googleId or whose email matches. */
  function FindByGoogleIdOrEmail(users: seq<User>, googleId: string, email: string): (r: Option<nat>)
    ensures r.Some? ==> r.value < |users| && (users[r.value].googleId == Some(googleId) || users[r.value].email == email)
    ensures r.Some? ==> forall i :: 0 <= i < r.value ==> users[i].googleId != Some(googleId) && users[i].email != email
    ensures r.None? ==> forall i :: 0 <= i < |users| ==> users[i].googleId != Some(googleId) && users[i].email != email
  {
    FindFirst(users, (u: User) => u.googleId == Some(googleId) || u.email == email)
  }

  /** What the callback does once it has an email. */
  datatype GoogleDecision = Refuse(error: AuthError) | Link(userId: nat) | Existing(userId: nat) | Create

  /** The matched user is refused when its email differs from the profile's
      (it was matched by googleId), bound to the profile's id when it has no
      googleId, and returned as it is otherwise; with no match a new user is
      created. */
  function DecideGoogleLogin(users: seq<User>, googleId: string, email: string): (d: GoogleDecision)
    ensures d.Create? <==> FindByGoogleIdOrEmail(users, googleId, email).None?
    ensures d.Refuse? ==> d.error == EmailAlreadyExists
    ensures !d.Create? ==> var i := FindByGoogleIdOrEmail(users, googleId, email).value;
      && (d.Refuse? <==> users[i].email != email)
      && (d.Link? <==> users[i].email == email && !Present(users[i].googleId))
      && (d.Existing? <==> users[i].email == email && Present(users[i].googleId))
      && (d.Link? || d.Existing? ==> d.userId == i)
  {
    match FindByGoogleIdOrEmail(users, googleId, email)
    case None => Create
    case Some(i) =>
      if users[i].email != email then Refuse(EmailAlreadyExists)
      else if !Present(users[i].googleId) then Link(i)
      else Existing(i)
  }

  /** A signed-up user without a Google account is linked on first Google
      sign-in with the same email, as long as no one else holds that
      Google id. */
  lemma LinkByEmail(users: seq<User>, googleId: string, i: nat)
    requires UsersValid(users) && i < |users| && !Present(users[i].googleId)
    requires forall j :: 0 <= j < |users| ==> users[j].googleId != Some(googleId)
    ensures DecideGoogleLogin(users, googleId, users[i].email) == Link(i)
  {
    var email := users[i].email;
    var r := FindByGoogleIdOrEmail(users, googleId, email);
    assert r.Some?;
    assert users[r.value].email == email;
  }

  /** A user already holding a Google id is found again on every later
      sign-in with that id and the same email, and nothing is changed. */
  lemma LinkedUserIsExisting(users: seq<User>, i: nat)
    requires UsersValid(users) && i < |users| && Present(users[i].googleId)
    ensures DecideGoogleLogin(users, users[i].googleId.value, users[i].email) == Existing(i)
  {
    var g := users[i].googleId.value;
    var r := FindByGoogleIdOrEmail(users, g, users[i].email);
    assert r.Some?;
    var j := r.value;
    assert j <= i;
  }

  /** A Google sign-in whose id belongs to a user with another email is
      refused, when no user holds the profile's email. */
  lemma GoogleIdWithOtherEmailRefused(users: seq<User>, i: nat, email: string)
    requires UsersValid(users) && i < |users| && Present(users[i].googleId) && users[i].email != email
    requires forall j :: 0 <= j < |users| ==> users[j].email != email
    ensures DecideGoogleLogin(users, users[i].googleId.value, email) == Refuse(EmailAlreadyExists)
  {
    var r := FindByGoogleIdOrEmail(users, users[i].googleId.value, email);
    assert r.Some?;
  }

  /** The Google verify callback as written. Binding the id to a matched user
      saves it; creating a user leaves the password out, which the schema
      requires, so a first Google sign-in never creates an account. */
  method GoogleVerify(db: Database, p: Profile) returns (r: Result<nat, AuthError>)
    requires db.Valid()
    modifies db
    ensures db.Valid() && db.sessions == old(db.sessions)
    ensures ProfileEmail(p).Failure? ==> r == Failure(ProfileEmail(p).error) && db.users == old(db.users)
    ensures ProfileEmail(p).Success? ==>
      match DecideGoogleLogin(old(db.users), p.id, ProfileEmail(p).value)
      case Refuse(e) => r == Failure(e) && db.users == old(db.users)
      case Existing(i) => r == Success(i) && db.users == old(db.users)
      case Link(i) =>
        var linked := old(db.users)[i].(googleId := Some(p.id));
        && (r.Success? <==> !ClashesAt(old(db.users), linked, i))
        && (r.Success? ==> r.value == i && db.users == old(db.users)[i := linked])
        && (r.Failure? ==> r.error == DuplicateKey && db.users == old(db.users))
      case Create => r == Failure(ValidationError) && db.users == old(db.users)
  {
    var email := ProfileEmail(p);
    if email.Failure? {
      return Failure(email.error);
    }
    var decision := DecideGoogleLogin(db.users, p.id, email.value);
    match decision
    case Refuse(e) =>
      r := Failure(e);
    case Existing(i) =>
      r := Success(i);
    case Link(i) =>
      r := LinkGoogleId(db, i, p.id);
    case Create =>
      r := db.CreateUser(NewUser(p.displayName, email.value, None, Some(p.id)));
  }

  /** Binding the profile's id to the matched user and saving it: the
      password is not touched, so the hook leaves it as stored. */
  method LinkGoogleId(db: Database, i: nat, googleId: string) returns (r: Result<nat, AuthError>)
    requires db.Valid() && i < |db.users|
    modifies db
    ensures db.Valid() && db.sessions == old(db.sessions)
    ensures var linked := old(db.users)[i].(googleId := Some(googleId));
      && (r.Success? <==> !ClashesAt(old(db.users), linked, i))
      && (r.Success? ==> r.value == i && db.users == old(db.users)[i := linked])
      && (r.Failure? ==> r.error == DuplicateKey && db.users == old(db.users))
  {
    var linked := db.users[i].(googleId := Some(googleId));
    assert StoredUserValid(db.users[i]);
    r := db.SaveUser(i, linked, false);
  }

  /** The Google verify callback with a schema that lets Google accounts go
      without a password: an unmatched profile with a name becomes a new,
      unverified user holding the Google id and no password. */
  method GoogleVerifyCorrected(db: Database, p: Profile) returns (r: Result<nat, AuthError>)
    requires db.Valid()
    modifies db
    ensures db.Valid() && db.sessions == old(db.sessions)
    ensures ProfileEmail(p).Failure? ==> r == Failure(ProfileEmail(p).error) && db.users == old(db.users)
    ensures ProfileEmail(p).Success? ==>
      match DecideGoogleLogin(old(db.users), p.id, ProfileEmail(p).value)
      case Refuse(e) => r == Failure(e) && db.users == old(db.users)
      case Existing(i) => r == Success(i) && db.users == old(db.users)
      case Link(i) =>
        var linked := old(db.users)[i].(googleId := Some(p.id));
        && (r.Success? <==> !ClashesAt(old(db.users), linked, i))
        && (r.Success? ==> r.value == i && db.users == old(db.users)[i := linked])
        && (r.Failure? ==> r.error == DuplicateKey && db.users == old(db.users))
      case Create =>
        && (p.displayName == "" ==> r == Failure(ValidationError) && db.users == old(db.users))
        && (p.displayName != "" ==>
              && r == Success(|old(db.users)|)
              && db.users == old(db.users) + [User(p.displayName, ProfileEmail(p).value, None, Some(p.id), false)])
  {
    var email := ProfileEmail(p);
    if email.Failure? {
      return Failure(email.error);
    }
    var decision := DecideGoogleLogin(db.users, p.id, email.value);
    match decision
    case Refuse(e) =>
      r := Failure(e);
    case Existing(i) =>
      r := Success(i);
    case Link(i) =>
      r := LinkGoogleId(db, i, p.id);
    case Create =>
      var data := NewUser(p.displayName, email.value, None, Some(p.id));
      assert !ClashesAt(db.users, NewRecord(data), |db.users|);
      r := db.CreateGoogleUser(data);
  }
}
