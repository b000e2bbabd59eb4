/** The authentication flows: sessions created with every token, logout,
    login, registration, email verification and password reset over the two
    collections and the OTP engine. JWT signing is foreign: a token is the
    payload, secret and lifetime `jwt.sign` was given. */
module Auth {
  import opened Wrappers
  import opened Errors
  import opened Decimal
  import opened OtpEngine
  import opened UserSchema
  import opened SessionSchema
  import opened Models

  /** What a token carries: the user's id, email and verification flag, and
      the id of the session created for it. */
  datatype JwtPayload = JwtPayload(id: nat, email: string, isEmailVerified: bool, sessionId: nat)

  /** A signed token: the payload, the secret it was signed with and its
      lifetime. */
  datatype Token = Token(payload: JwtPayload, secret: string, expiresIn: string)

  const TokenLifetime := "30d"
  const VerifyEmailTemplate := "verify-email-via-otp"
  const ResetPasswordTemplate := "reset-password-via-otp"

  /** The JWT secret setting is present and non-empty. */
  predicate SecretSet(secret: Option<string>) {
    secret.Some? && secret.value != ""
  }

  /** The token `generateToken` signs for the user at `userId` and session
      `sessionId`. */
  function TokenFor(u: User, userId: nat, sessionId: nat, secret: string): Token {
    Token(JwtPayload(userId, u.email, u.isEmailVerified, sessionId), secret, TokenLifetime)
  }

  /** The registration payload checks: a password of at least six characters
      and a non-empty fullname. */
  predicate ValidRegistration(password: string, fullname: string)
    ensures ValidRegistration(password, fullname) ==> Present(Some(password)) && fullname != ""
  {
    |password| >= 6 && |fullname| >= 1
  }

  class AuthService {
    const db: Database
    const otp: OtpService
    const jwtSecret: Option<string>
    /** bcrypt's `compare(candidate, hash)`. */
    const compare: (string, string) -> bool

    ghost predicate Valid()
      reads this, db
    {
      db.Valid()
    }

    constructor (db: Database, otp: OtpService, jwtSecret: Option<string>, compare: (string, string) -> bool)
      ensures this.db == db && this.otp == otp
      ensures this.jwtSecret == jwtSecret && this.compare == compare
    {
      this.db := db;
      this.otp := otp;
      this.jwtSecret := jwtSecret;
      this.compare := compare;
    }

    /** `createSession`: one new valid session for the user, logged in now. */
    method CreateSession(userId: nat, now: int) returns (sessionId: nat)
      requires Valid() && userId < |db.users|
      modifies db
      ensures Valid() && db.users == old(db.users)
      ensures sessionId == |old(db.sessions)|
      ensures db.sessions == old(db.sessions) + [NewSession(userId, now)]
    {
      db.sessions := db.sessions + [NewSession(userId, now)];
      sessionId := |db.sessions| - 1;
    }

    /** `generateToken`: always creates the session first, then fails if no
        secret is configured, and otherwise signs the user's id, email,
        verification flag and the new session's id for thirty days. */
    method GenerateToken(userId: nat, now: int) returns (r: Result<Token, AuthError>)
      requires Valid() && userId < |db.users|
      modifies db
      ensures Valid() && db.users == old(db.users)
      ensures db.sessions == old(db.sessions) + [NewSession(userId, now)]
      ensures !SecretSet(jwtSecret) ==> r == Failure(JwtSecretNotSet)
      ensures SecretSet(jwtSecret) ==>
        r == Success(TokenFor(db.users[userId], userId, |old(db.sessions)|, jwtSecret.value))
    {
      var sessionId := CreateSession(userId, now);
      var user := db.users[userId];
      var payload := JwtPayload(userId, user.email, user.isEmailVerified, sessionId);
      if !SecretSet(jwtSecret) {
        return Failure(JwtSecretNotSet);
      }
      r := Success(Token(payload, jwtSecret.value, TokenLifetime));
    }

    /** `sendEmailVerificationOtp`: issues an email-verification code only to
        a registered email; otherwise nothing happens. */
    method SendEmailVerificationOtp(email: string, now: int, random: int)
      requires Valid() && 100000 <= random < 999999
      modifies otp
      ensures FindByEmail(db.users, email).Some? ==>
        && otp.store == AfterIssue(old(otp.store), OtpEmailRedisKey(email, "email-verification"), DecimalString(random), now)
        && otp.jobs == old(otp.jobs) + [SendOtpJob(email, VerifyEmailTemplate, DecimalString(random))]
      ensures FindByEmail(db.users, email).None? ==> otp.store == old(otp.store) && otp.jobs == old(otp.jobs)
    {
      var user := FindByEmail(db.users, email);
      if user.Some? {
        otp.GenerateAndSendOtp(email, VerifyEmailTemplate, EmailVerification, now, random);
      }
    }

    /** `sendPasswordResetOtp`: the same for a forgot-password code. */
    method SendPasswordResetOtp(email: string, now: int, random: int)
      requires Valid() && 100000 <= random < 999999
      modifies otp
      ensures FindByEmail(db.users, email).Some? ==>
        && otp.store == AfterIssue(old(otp.store), OtpEmailRedisKey(email, "forgot-password"), DecimalString(random), now)
        && otp.jobs == old(otp.jobs) + [SendOtpJob(email, ResetPasswordTemplate, DecimalString(random))]
      ensures FindByEmail(db.users, email).None? ==> otp.store == old(otp.store) && otp.jobs == old(otp.jobs)
    {
      var user := FindByEmail(db.users, email);
      if user.Some? {
        otp.GenerateAndSendOtp(email, ResetPasswordTemplate, ForgotPassword, now, random);
      }
    }

    /** `registerUser` as written: the existence check is inverted, so an
        unknown email is refused as "User already exists" and a known one is
        handed to `createUser`, where the unique email index refuses it. No
        user is ever added. */
    method RegisterUser(email: string, password: string, fullname: string) returns (r: Result<nat, AuthError>)
      requires Valid()
      modifies db
      ensures Valid() && db.users == old(db.users) && db.sessions == old(db.sessions)
      ensures !ValidRegistration(password, fullname) ==> r == Failure(ValidationError)
      ensures ValidRegistration(password, fullname) && FindByEmail(old(db.users), email).None? ==>
        r == Failure(UserAlreadyExists)
      ensures ValidRegistration(password, fullname) && FindByEmail(old(db.users), email).Some? ==>
        r == Failure(DuplicateKey)
    {
      if !ValidRegistration(password, fullname) {
        return Failure(ValidationError);
      }
      var user := FindByEmail(db.users, email);
      if user.None? {
        return Failure(UserAlreadyExists);
      }
      ghost var clash := user.value;
      assert db.users[clash].email == email;
      r := db.CreateUser(NewUser(fullname, email, Some(password), None));
    }

    /** `registerUser` with the check the right way round: a known email is
        refused, an unknown one becomes a new unverified user whose stored
        password is the hash of the one given. */
    method RegisterUserCorrected(email: string, password: string, fullname: string) returns (r: Result<nat, AuthError>)
      requires Valid()
      modifies db
      ensures Valid() && db.sessions == old(db.sessions)
      ensures !ValidRegistration(password, fullname) ==> r == Failure(ValidationError) && db.users == old(db.users)
      ensures ValidRegistration(password, fullname) && FindByEmail(old(db.users), email).Some? ==>
        r == Failure(UserAlreadyExists) && db.users == old(db.users)
      ensures ValidRegistration(password, fullname) && FindByEmail(old(db.users), email).None? && email != "" ==>
        && r == Success(|old(db.users)|)
        && db.users == old(db.users) + [User(fullname, email, Some(db.hash(password)), None, false)]
    {
      if !ValidRegistration(password, fullname) {
        return Failure(ValidationError);
      }
      var user := FindByEmail(db.users, email);
      if user.Some? {
        return Failure(UserAlreadyExists);
      }
      r := db.CreateUser(NewUser(fullname, email, Some(password), None));
    }

    /** `comparePassword` on the loaded document `doc` of the user at
        `userId`, then a token when it matches. */
    method AuthenticateDocument(userId: nat, doc: User, password: string, now: int) returns (r: Result<Token, AuthError>)
      requires Valid() && userId < |db.users|
      modifies db
      ensures Valid() && db.users == old(db.users)
      ensures doc.password.None? ==> r == Failure(HashArgumentsRequired) && db.sessions == old(db.sessions)
      ensures doc.password.Some? && !compare(password, doc.password.value) ==>
        r == Failure(InvalidCredentials) && db.sessions == old(db.sessions)
      ensures doc.password.Some? && compare(password, doc.password.value) ==>
        && db.sessions == old(db.sessions) + [NewSession(userId, now)]
        && (SecretSet(jwtSecret) ==> r == Success(TokenFor(db.users[userId], userId, |old(db.sessions)|, jwtSecret.value)))
        && (!SecretSet(jwtSecret) ==> r == Failure(JwtSecretNotSet))
    {
      var isMatch := ComparePassword(doc, password, compare);
      if isMatch.Failure? {
        return Failure(isMatch.error);
      }
      if !isMatch.value {
        return Failure(InvalidCredentials);
      }
      r := GenerateToken(userId, now);
    }

    /** `loginUser` as written: the user is loaded without its password field
        (`select: false`), so for every registered email bcrypt is handed no
        hash and rejects; no login ever succeeds, and the error differs from
        the one an unknown email gets. */
    method LoginUser(email: string, password: string, now: int) returns (r: Result<Token, AuthError>)
      requires Valid()
      modifies db
      ensures Valid() && db.users == old(db.users) && db.sessions == old(db.sessions)
      ensures FindByEmail(db.users, email).None? ==> r == Failure(InvalidCredentials)
      ensures FindByEmail(db.users, email).Some? ==> r == Failure(HashArgumentsRequired)
    {
      var found := FindByEmail(db.users, email);
      if found.None? {
        return Failure(InvalidCredentials);
      }
      var user := Projected(db.users[found.value]);
      r := AuthenticateDocument(found.value, user, password, now);
    }

    /** `loginUser` with the password field selected: an unknown email and a
        wrong password fail alike with "Invalid credentials" and create no
        session; a right password yields a token for a new session. */
    method LoginUserCorrected(email: string, password: string, now: int) returns (r: Result<Token, AuthError>)
      requires Valid()
      modifies db
      ensures Valid() && db.users == old(db.users)
      ensures FindByEmail(db.users, email).None? ==> r == Failure(InvalidCredentials) && db.sessions == old(db.sessions)
      ensures FindByEmail(db.users, email).Some? ==>
        var i := FindByEmail(db.users, email).value;
        var stored := db.users[i].password;
        && (stored.None? ==> r == Failure(HashArgumentsRequired) && db.sessions == old(db.sessions))
        && (stored.Some? && !compare(password, stored.value) ==>
              r == Failure(InvalidCredentials) && db.sessions == old(db.sessions))
        && (stored.Some? && compare(password, stored.value) ==>
              && db.sessions == old(db.sessions) + [NewSession(i, now)]
              && (SecretSet(jwtSecret) ==> r == Success(TokenFor(db.users[i], i, |old(db.sessions)|, jwtSecret.value)))
              && (!SecretSet(jwtSecret) ==> r == Failure(JwtSecretNotSet)))
    {
      var found := FindByEmail(db.users, email);
      if found.None? {
        return Failure(InvalidCredentials);
      }
      var user := db.users[found.value];
      r := AuthenticateDocument(found.value, user, password, now);
    }

    /** `logoutUser`: invalidates that session and stamps its logout time;
        every other session, and every user, is untouched. */
    method LogoutUser(sessionId: nat, now: int)
      requires Valid()
      modifies db
      ensures Valid() && db.users == old(db.users)
      ensures db.sessions == Invalidate(old(db.sessions), sessionId, now)
    {
      db.sessions := Invalidate(db.sessions, sessionId, now);
    }

    /** `verifyEmail`: a rejected code changes no user and no session; an
        accepted one marks the user verified and returns a token, carrying
        the flag as true, backed by a new session. */
    method VerifyEmail(email: string, code: string, now: int) returns (r: Result<Option<Token>, AuthError>)
      requires Valid()
      modifies db, otp
      ensures Valid()
      ensures var key := OtpEmailRedisKey(email, "email-verification");
        otp.store == AfterVerify(old(otp.store), key, code, now) && otp.jobs == old(otp.jobs)
      ensures !Accepts(old(otp.store), OtpEmailRedisKey(email, "email-verification"), code, now) ==>
        r == Success(None) && db.users == old(db.users) && db.sessions == old(db.sessions)
      ensures (Accepts(old(otp.store), OtpEmailRedisKey(email, "email-verification"), code, now) &&
               FindByEmail(old(db.users), email).None?) ==>
        r == Success(None) && db.users == old(db.users) && db.sessions == old(db.sessions)
      ensures (Accepts(old(otp.store), OtpEmailRedisKey(email, "email-verification"), code, now) &&
               FindByEmail(old(db.users), email).Some?) ==>
        var i := FindByEmail(old(db.users), email).value;
        && db.users == old(db.users)[i := old(db.users)[i].(isEmailVerified := true)]
        && db.sessions == old(db.sessions) + [NewSession(i, now)]
        && (SecretSet(jwtSecret) ==>
              && r == Success(Some(TokenFor(db.users[i], i, |old(db.sessions)|, jwtSecret.value)))
              && r.value.value.payload.isEmailVerified)
        && (!SecretSet(jwtSecret) ==> r == Failure(JwtSecretNotSet))
    {
      var isValid := otp.VerifyOtp(email, code, "email-verification", now);
      if !isValid {
        return Success(None);
      }
      var user := db.MarkEmailVerified(email);
      if user.Some? {
        var token := GenerateToken(user.value, now);
        match token
        case Success(t) => r := Success(Some(t));
        case Failure(e) => r := Failure(e);
      } else {
        r := Success(None);
      }
    }

    /** `updatePasswordWithOtp`: a rejected code returns false and changes
        nothing; after an accepted one a missing user is an error, and
        otherwise the stored password becomes the hash of the new one. No
        session is created in any case. */
    method UpdatePasswordWithOtp(email: string, newPassword: string, code: string, now: int)
      returns (r: Result<bool, AuthError>)
      requires Valid()
      modifies db, otp
      ensures Valid() && db.sessions == old(db.sessions)
      ensures var key := OtpEmailRedisKey(email, "forgot-password");
        otp.store == AfterVerify(old(otp.store), key, code, now) && otp.jobs == old(otp.jobs)
      ensures !Accepts(old(otp.store), OtpEmailRedisKey(email, "forgot-password"), code, now) ==>
        r == Success(false) && db.users == old(db.users)
      ensures Accepts(old(otp.store), OtpEmailRedisKey(email, "forgot-password"), code, now) ==>
        match FindByEmail(old(db.users), email)
        case None => r == Failure(UserNotFound) && db.users == old(db.users)
        case Some(i) =>
          && (newPassword == "" ==> r == Failure(ValidationError) && db.users == old(db.users))
          && (newPassword != "" ==>
                r == Success(true) && db.users == old(db.users)[i := old(db.users)[i].(password := Some(db.hash(newPassword)))])
    {
      var isValid := otp.VerifyOtp(email, code, "forgot-password", now);
      if !isValid {
        return Success(false);
      }
      var user := FindByEmail(db.users, email);
      if user.None? {
        return Failure(UserNotFound);
      }
      var i := user.value;
      var updated := db.users[i].(password := Some(newPassword));
      assert !ClashesAt(db.users, updated, i);
      var saved := db.SaveUser(i, updated, true);
      if saved.Failure? {
        return Failure(saved.error);
      }
      r := Success(true);
    }
  }
}
