/** End-to-end runs of the authentication layer on fresh stores: each
    method builds its own database, OTP service and auth service, drives a
    sequence of calls, and states what the caller observes. */
module Scenarios {
  import opened Wrappers
  import opened Errors
  import opened Decimal
  import opened OtpEngine
  import opened EmailTemplate
  import opened UserSchema
  import opened SessionSchema
  import opened Models
  import opened Auth
  import opened Passport

  /** The email a `send-otp` job asks for shows the issued code at the
      template's first `{{otp}}`, and the rest of the template is rendered
      after it. */
  lemma OtpEmailShowsCode(email: string, templateName: string, code: string, prefix: string, rest: string)
    requires '{' !in prefix
    ensures var vars := SendOtpJob(email, templateName, code).template.variables;
      Render(prefix + ("{{otp}}" + rest), vars) == prefix + (code + Render(rest, vars))
  {
    var vars := SendOtpJob(email, templateName, code).template.variables;
    var s := "{{otp}}" + rest;
    assert IsWordName("otp");
    assert PlaceholderAt(s, "otp") by {
      assert s[..7] == PlaceholderText("otp");
    }
    assert s[7..] == rest;
    RenderLiteralPrefix(prefix, s, vars);
    RenderPlaceholderFirst(s, "otp", vars);
  }

  /** A wrong guess is refused and keeps the code alive, the right code is
      then accepted once, and replaying it is refused. */
  method OtpSingleUse(email: string, now: int, random: int) returns (wrong: bool, right: bool, replay: bool)
    requires 100000 <= random < 999999
    ensures !wrong && right && !replay
  {
    var otp := new OtpService();
    otp.GenerateAndSendOtp(email, VerifyEmailTemplate, EmailVerification, now, random);
    wrong := otp.VerifyOtp(email, "00000", "email-verification", now + 1000);
    right := otp.VerifyOtp(email, DecimalString(random), "email-verification", now + 2000);
    replay := otp.VerifyOtp(email, DecimalString(random), "email-verification", now + 3000);
  }

  /** A code is still accepted at its expiry instant and refused one
      millisecond later. A password-reset code is refused for email
      verification and stays usable for the reset. */
  method OtpExpiryAndPurpose(email: string, now: int, random: int)
    returns (atExpiry: bool, afterExpiry: bool, otherPurpose: bool, ownPurpose: bool)
    requires 100000 <= random < 999999
    ensures atExpiry && !afterExpiry && !otherPurpose && ownPurpose
  {
    var otp := new OtpService();
    var code := DecimalString(random);
    otp.GenerateAndSendOtp(email, VerifyEmailTemplate, EmailVerification, now, random);
    atExpiry := otp.VerifyOtp(email, code, "email-verification", now + OtpTtlMs);
    otp.GenerateAndSendOtp(email, VerifyEmailTemplate, EmailVerification, now, random);
    afterExpiry := otp.VerifyOtp(email, code, "email-verification", now + OtpTtlMs + 1);
    var reset := new OtpService();
    reset.GenerateAndSendOtp(email, ResetPasswordTemplate, ForgotPassword, now, random);
    OtpKeyInjectiveOnTypes(email);
    otherPurpose := reset.VerifyOtp(email, code, "email-verification", now);
    ownPurpose := reset.VerifyOtp(email, code, "forgot-password", now);
  }

  /** The two purposes never share a store key for the same email. */
  lemma OtpKeyInjectiveOnTypes(email: string)
    ensures OtpEmailRedisKey(email, "forgot-password") != OtpEmailRedisKey(email, "email-verification")
  {
    var k1 := OtpEmailRedisKey(email, "forgot-password");
    var k2 := OtpEmailRedisKey(email, "email-verification");
    assert |k1| != |k2|;
  }

  /** A fresh database with one user registered through the corrected
      registration flow. */
  method RegisteredService(hash: string -> string, compare: (string, string) -> bool, secret: Option<string>,
                           email: string, password: string, fullname: string)
    returns (auth: AuthService)
    requires ValidRegistration(password, fullname) && email != ""
    ensures fresh(auth) && fresh(auth.db) && fresh(auth.otp) && auth.Valid()
    ensures auth.db.users == [User(fullname, email, Some(hash(password)), None, false)]
    ensures auth.db.sessions == [] && auth.otp.store == map[]
    ensures auth.db.hash == hash && auth.compare == compare && auth.jwtSecret == secret
  {
    var db := new Database(hash);
    var otp := new OtpService();
    auth := new AuthService(db, otp, secret, compare);
    var r := auth.RegisterUserCorrected(email, password, fullname);
  }

  /** Two logins give two tokens backed by two sessions; logging out the
      first refuses its token and leaves the second accepted. */
  method SessionLifecycle(hash: string -> string, compare: (string, string) -> bool, secret: string,
                          email: string, password: string, fullname: string, now: int)
    returns (before: JwtVerdict, afterLogout: JwtVerdict, other: JwtVerdict)
    requires ValidRegistration(password, fullname) && email != "" && secret != ""
    requires compare(password, hash(password))
    ensures before == Authenticated(User(fullname, email, None, None, false), 0, 0)
    ensures afterLogout == Rejected(SessionNotFound)
    ensures other == Authenticated(User(fullname, email, None, None, false), 0, 1)
  {
    var auth := RegisteredService(hash, compare, Some(secret), email, password, fullname);
    assert FindByEmail(auth.db.users, email) == Some(0);
    var first := auth.LoginUserCorrected(email, password, now);
    var second := auth.LoginUserCorrected(email, password, now + 1);
    before := VerifyJwtPayload(auth.db.users, auth.db.sessions, first.value.payload);
    auth.LogoutUser(first.value.payload.sessionId, now + 2);
    afterLogout := VerifyJwtPayload(auth.db.users, auth.db.sessions, first.value.payload);
    other := VerifyJwtPayload(auth.db.users, auth.db.sessions, second.value.payload);
  }

  /** `registerUser` as written on an empty database refuses with "User
      already exists" and adds no one. */
  method RegisterOnEmptyDatabase(hash: string -> string, compare: (string, string) -> bool, secret: Option<string>,
                                 email: string, password: string, fullname: string)
    returns (r: Result<nat, AuthError>, userCount: nat)
    requires ValidRegistration(password, fullname)
    ensures r == Failure(UserAlreadyExists) && userCount == 0
  {
    var db := new Database(hash);
    var otp := new OtpService();
    var auth := new AuthService(db, otp, secret, compare);
    r := auth.RegisterUser(email, password, fullname);
    userCount := |db.users|;
  }

  /** A second account with another email: the unique indexes as declared
      refuse it on the shared missing `appleId`, sparse indexes admit it. */
  method SecondUserAsDeclared(hash: string -> string, compare: (string, string) -> bool,
                              email: string, password: string, fullname: string, other: string)
    returns (asDeclared: Result<nat, AuthError>, sparse: Result<nat, AuthError>)
    requires ValidRegistration(password, fullname) && email != "" && other != "" && other != email
    ensures asDeclared == Failure(DuplicateKey) && sparse == Success(1)
  {
    var auth := RegisteredService(hash, compare, None, email, password, fullname);
    var data := NewUser(fullname, other, Some(password), None);
    asDeclared := auth.db.InsertAsDeclared(data);
    sparse := auth.db.Insert(data);
  }

  /** With the right password, `loginUser` as written fails inside bcrypt,
      while the corrected login returns a token. */
  method LoginWithRightPassword(hash: string -> string, compare: (string, string) -> bool, secret: string,
                                email: string, password: string, fullname: string, now: int)
    returns (asWritten: Result<Token, AuthError>, corrected: Result<Token, AuthError>)
    requires ValidRegistration(password, fullname) && email != "" && secret != ""
    requires compare(password, hash(password))
    ensures asWritten == Failure(HashArgumentsRequired)
    ensures corrected == Success(Token(JwtPayload(0, email, false, 0), secret, TokenLifetime))
  {
    var auth := RegisteredService(hash, compare, Some(secret), email, password, fullname);
    assert FindByEmail(auth.db.users, email) == Some(0);
    asWritten := auth.LoginUser(email, password, now);
    corrected := auth.LoginUserCorrected(email, password, now);
  }

  /** A first Google sign-in: the callback as written fails validation, the
      corrected one creates the account. */
  method FirstGoogleSignIn(hash: string -> string, googleId: string, name: string, email: string)
    returns (asWritten: Result<nat, AuthError>, corrected: Result<nat, AuthError>, created: seq<User>)
    requires name != "" && email != ""
    ensures asWritten == Failure(ValidationError)
    ensures corrected == Success(0)
    ensures created == [User(name, email, None, Some(googleId), false)]
  {
    var profile := Profile(googleId, name, Some([email]));
    var db1 := new Database(hash);
    asWritten := GoogleVerify(db1, profile);
    var db2 := new Database(hash);
    corrected := GoogleVerifyCorrected(db2, profile);
    created := db2.users;
  }

  /** A user who signed up with a password and later signs in with Google
      under the same email gets the Google id bound to the account, keeps the
      password hash, and is found as an existing user next time. */
  method GoogleLinksPasswordAccount(hash: string -> string, compare: (string, string) -> bool,
                                    email: string, password: string, fullname: string, googleId: string, name: string)
    returns (first: Result<nat, AuthError>, again: Result<nat, AuthError>, stored: User)
    requires ValidRegistration(password, fullname) && email != "" && googleId != ""
    ensures first == Success(0) && again == Success(0)
    ensures stored == User(fullname, email, Some(hash(password)), Some(googleId), false)
  {
    var auth := RegisteredService(hash, compare, None, email, password, fullname);
    var db := auth.db;
    LinkByEmail(db.users, googleId, 0);
    var profile := Profile(googleId, name, Some([email]));
    first := GoogleVerify(db, profile);
    LinkedUserIsExisting(db.users, 0);
    again := GoogleVerify(db, profile);
    stored := db.users[0];
  }

  /** Verifying an email with the code that was sent marks the user verified
      and returns a token saying so; the same code does not work twice. */
  method VerifyEmailFlow(hash: string -> string, compare: (string, string) -> bool, secret: string,
                         email: string, password: string, fullname: string, now: int, random: int)
    returns (token: Result<Option<Token>, AuthError>, replay: Result<Option<Token>, AuthError>, verified: bool)
    requires ValidRegistration(password, fullname) && email != "" && secret != ""
    requires 100000 <= random < 999999
    ensures token == Success(Some(Token(JwtPayload(0, email, true, 0), secret, TokenLifetime)))
    ensures replay == Success(None)
    ensures verified
  {
    var auth := RegisteredService(hash, compare, Some(secret), email, password, fullname);
    assert FindByEmail(auth.db.users, email) == Some(0);
    auth.SendEmailVerificationOtp(email, now, random);
    token := auth.VerifyEmail(email, DecimalString(random), now + 1000);
    replay := auth.VerifyEmail(email, DecimalString(random), now + 2000);
    verified := auth.db.users[0].isEmailVerified;
  }

  /** Resetting a password with the code that was sent stores the new
      password's hash and creates no session. */
  method PasswordResetFlow(hash: string -> string, compare: (string, string) -> bool,
                           email: string, password: string, fullname: string, newPassword: string,
                           now: int, random: int)
    returns (r: Result<bool, AuthError>, stored: Option<string>, sessionCount: nat)
    requires ValidRegistration(password, fullname) && email != "" && newPassword != ""
    requires 100000 <= random < 999999
    ensures r == Success(true) && stored == Some(hash(newPassword)) && sessionCount == 0
  {
    var auth := RegisteredService(hash, compare, None, email, password, fullname);
    assert FindByEmail(auth.db.users, email) == Some(0);
    auth.SendPasswordResetOtp(email, now, random);
    r := auth.UpdatePasswordWithOtp(email, newPassword, DecimalString(random), now + 1000);
    stored := auth.db.users[0].password;
    sessionCount := |auth.db.sessions|;
  }
}
