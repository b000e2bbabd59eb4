# express-template authentication state, in Dafny

This project models the authentication state layer of the express-template
server:

- the OTP engine: codes kept under `otp:<email>:<type>` with a five-minute
  expiry, one delivery job queued per code, and single-use verification;
- the session registry: one session per issued token, invalidated on logout;
- the auth service flows: register, login, logout, email verification and
  password reset;
- the passport strategies: where a JWT is read from, the session check of the
  JWT callback, the Google client-id check and the Google account-linking
  callback;
- the `{{name}}` placeholder substitution that renders email templates;
- the User and Session schemas: required fields, unique indexes, defaults, the
  pre-save password hashing hook and `comparePassword`.

The User and Session collections are `seq`s owned by a `Database` class, and
a record's id is its position, since nothing is ever deleted. The Redis store
and the job queue are a `map` and a `seq` owned by `OtpService`. `AuthService`
holds both and mirrors the source's class. The foreign operations enter from
outside:

- bcrypt's `hash` and `compare` are uninterpreted function values;
- `crypto.randomInt` and `Date.now()` are method parameters;
- `jwt.sign` produces a `Token` value that records what it was given.

The source has four defects, listed under "## Findings". Each is modelled
as written and also corrected; the end-to-end runs in `Scenarios` use the
corrected members and show the failures of the as-written ones.

Files:

- `common.dfy`: `Option`, `Result`, `FindFirst` and the error messages.
- `decimal.dfy`: decimal rendering of the random code.
- `otp_service.dfy`: the OTP engine.
- `email.dfy`: template rendering.
- `user_schema.dfy`, `session_schema.dfy`: the two schemas.
- `models.dfy`: the collections and the writes that the schema constrains.
- `auth_service.dfy`: the auth flows.
- `passport.dfy`: the strategies.
- `scenarios.dfy`: end-to-end runs.

## Model

| member | source | states |
|---|---|---|
| Wrappers.FindFirst | src/module/user/user.service.ts:11-13 | a single-document query returns a record that matches, the earliest one; it returns none only when no record matches |
| Decimal.DecimalString | src/module/otp/otp.service.ts:47 | `toString()` of a natural number is a non-empty digit string without a leading zero |
| Decimal.ParseDecimalString | src/module/otp/otp.service.ts:47 | reading the decimal string back gives the number, so distinct draws give distinct codes |
| Decimal.DecimalStringLength | src/module/otp/otp.service.ts:47 | a number in [10^k, 10^(k+1)) is written with exactly k+1 digits |
| Decimal.SixDigitCode | src/module/otp/otp.service.ts:47 | every value `randomInt(100000, 999999)` can return is written as exactly six digits |
| OtpEngine.OtpEmailRedisKey | src/module/otp/otp.service.ts:35-36 | the key is `otp:`, then the email, then `:`, then the type, and nothing else |
| OtpEngine.IndexOf | src/module/otp/otp.service.ts:35-36 | gives the first position of a character, or none exactly when the character does not occur |
| OtpEngine.ParseOtpKeyRoundTrip | src/module/otp/otp.service.ts:35-36 | when the email has no `:`, the key `otp:<email>:<type>` splits back into that email and type |
| OtpEngine.OtpKeyInjective | src/module/otp/otp.service.ts:35-36 | when the emails have no `:`, distinct (email, type) pairs get distinct store keys |
| OtpEngine.OtpKeyCollidesOnColon | src/module/otp/otp.service.ts:35-36 | without that condition keys collide: ("a:b", "c") and ("a", "b:c") share a key |
| OtpEngine.VerifyOutcomes | src/module/otp/otp.service.ts:76-95 | verification outcomes: with no record it fails and keeps the store; an expired record fails and is deleted; the right code succeeds and is deleted; a wrong code fails and keeps the record; other keys are untouched |
| OtpEngine.IssuedCodeSingleUse | src/module/otp/otp.service.ts:90-93 | an issued code is accepted up to its expiry, and a second presentation after acceptance fails |
| OtpEngine.WrongCodeThenRightCode | src/module/otp/otp.service.ts:95 | a wrong guess leaves the store exactly as it was, so the right code is still accepted afterwards |
| OtpEngine.ExpiredCodeRejected | src/module/otp/otp.service.ts:85-88 | after `now + 300000` any code is refused and the record is deleted |
| OtpEngine.IssueIsolated | src/module/otp/otp.service.ts:48-53 | when neither email contains `:`, issuing for one (email, type) leaves the verification result of every other pair unchanged |
| OtpEngine.OtpService.GenerateAndSendOtp | src/module/otp/otp.service.ts:38-65 | the store gets the record {six-digit code, now + 300000} under the key, overwriting any earlier one; exactly one `send-otp` job is appended, carrying the email, the code and the template {name, {otp}} |
| OtpEngine.OtpService.VerifyOtp | src/module/otp/otp.service.ts:67-96 | the result is exactly `Accepts` on the old store, the new store is `AfterVerify` of the old one, and the queue is unchanged |
| EmailTemplate.WordRun | src/config/email.ts:84 | the greedy `\w+` run: every character before its end is a word character and the next one is not |
| EmailTemplate.MatchAt | src/config/email.ts:84 | a match at the start of the text is found exactly when `{{name}}` with a `\w+` name starts there, and the name is that one |
| EmailTemplate.Tokenize | src/config/email.ts:83-86 | the scan's pieces spell the template back, every placeholder in them has a word name, and each piece is what the anchored match decides where it starts: a placeholder exactly where `{{\w+}}` matches, a kept character everywhere else |
| EmailTemplate.TokenizeUnique | src/config/email.ts:84 | the round trip and the scan order determine the pieces: any other split that meets both is the tokenizer's, so the matches are the regex's left-to-right, non-overlapping ones |
| EmailTemplate.Lookup | src/config/email.ts:85 | a placeholder's replacement is the variable's value when the variable exists (an empty value stays empty) and "" when it is missing |
| EmailTemplate.Render | src/config/email.ts:83-86 | a template without `{` is returned unchanged |
| EmailTemplate.FillBraceFree | src/config/email.ts:83-86 | text without `{` scans into plain characters that fill back to the text itself |
| EmailTemplate.RenderPlaceholderFirst | src/config/email.ts:83-86 | a leading placeholder becomes its value, and scanning resumes after the placeholder in the template, not in the value |
| EmailTemplate.RenderLiteralFirst | src/config/email.ts:83-86 | a character where no placeholder starts is copied through |
| EmailTemplate.RenderWithoutPlaceholders | src/config/email.ts:84 | text in which no `{{\w+}}` starts anywhere is returned unchanged |
| EmailTemplate.RenderLiteralPrefix | src/config/email.ts:83-86 | a prefix without `{` is copied unchanged in front of the rest's rendering |
| EmailTemplate.RenderSinglePlaceholder | src/config/email.ts:85 | `{{name}}` renders as the variable's value, or as "" when it is missing or empty |
| EmailTemplate.InsertedValueNotRescanned | src/config/email.ts:83-86 | a value that contains `{{otp}}` is inserted literally |
| EmailTemplate.NonWordPlaceholdersStayLiteral | src/config/email.ts:84 | `{{}}` and `{{a-b}}` are left as they are |
| EmailTemplate.NoPlaceholderIn | src/config/email.ts:84 | no match starts at any position of `{{}}` or `{{a-b}}` |
| UserSchema.NonSparseIndexesAdmitOneUser | src/module/user/user.schema.ts:32-39 | as declared, the unique `googleId` and `appleId` indexes refuse every user after the first, since all users share a missing `appleId` |
| UserSchema.SparseClashIsDeclaredClash | src/module/user/user.schema.ts:22-39 | every write the sparse reading refuses is also refused by the indexes as declared |
| UserSchema.SecondUserAdmittedWhenSparse | src/module/user/user.schema.ts:32-39 | a second user with another email and no googleId is admitted by sparse indexes and refused by the declared ones |
| UserSchema.WriteKeepsValid | src/module/user/user.schema.ts:22-35 | a write that neither unique index refuses keeps emails unique, googleIds unique and every user with a fullname and an email |
| UserSchema.FindByEmail | src/module/user/user.service.ts:11-13 | the lookup returns a user with that email, or none exactly when no user has it |
| UserSchema.FindByEmailUnique | src/module/user/user.schema.ts:22-26 | under the unique email index, the lookup returns the one user with that email |
| UserSchema.Projected | src/module/user/user.schema.ts:27-31 | a loaded document has no password and agrees with the stored one on every other field |
| UserSchema.PreSave | src/module/user/user.schema.ts:51-58 | the hook changes only the password, and changes it only when it was modified, to the hash of the new value |
| UserSchema.SaveUnmodifiedKeepsHash | src/module/user/user.schema.ts:52-54 | saving with the password untouched leaves the stored hash as it was |
| UserSchema.NewRecord | src/module/user/user.schema.ts:40-43 | a created user gets `isEmailVerified = false` and keeps the given fields |
| UserSchema.ComparePassword | src/module/user/user.schema.ts:62-66 | the result is `compare(candidate, storedHash)` on the document's own password; with no password on the document, bcrypt rejects |
| SessionSchema.NewSession | src/module/auth/session.schema.ts:17-33 | a new session is valid, belongs to its user, logged in at creation time, and has no logout time |
| SessionSchema.Invalidate | src/module/auth/auth.service.ts:109-114 | logout sets `isValid = false` and stamps the logout time on that session only; an unknown id changes nothing |
| SessionSchema.CreateEffect | src/module/auth/auth.service.ts:26-35 | the session created at login is live for its user and no other (as the JWT callback's query at src/config/passport.ts:51-55 checks), and every existing session is as live as before |
| SessionSchema.InvalidateEffect | src/module/auth/auth.service.ts:109-114 | after logout that session is not live, every other session is as live as before, and an unknown id leaves the table as it was |
| SessionSchema.InvalidateIdempotent | src/module/auth/auth.service.ts:109-114 | logging out twice is the same as logging out once at the later time |
| SessionSchema.InvalidateNeverRevives | src/module/auth/session.schema.ts:22-25 | no logout makes an invalid session valid again |
| Models.Database.Insert | src/module/user/user.schema.ts:22-39 | with the `googleId` and `appleId` indexes read as sparse: a new record is appended, with its password hashed, exactly when no user shares its email or its (present) googleId; otherwise duplicate key and no change |
| Models.Database.InsertAsDeclared | src/module/user/user.schema.ts:22-39 | with the indexes as declared: the insert succeeds exactly when the declared indexes see no clash, so it fails with duplicate key on any table that already holds a user |
| Models.Database.CreateUser | src/module/user/user.schema.ts:18-31 | a create missing fullname, email or password fails validation and changes nothing; otherwise it is an insert |
| Models.Database.CreateGoogleUser | src/config/passport.ts:119-123 | corrected schema: a password-less Google account is validated on fullname and email only, then inserted under the unique indexes (as written the schema also requires a password, see "## Findings") |
| Models.Database.SaveUser | src/module/user/user.schema.ts:51-58 | a save validates a modified password, runs the hook, and writes at that position unless a unique index refuses |
| Models.Database.MarkEmailVerified | src/module/auth/auth.service.ts:125-128 | the user found by email, and only that user, gets `isEmailVerified = true`; no validator or hook runs |
| Auth.ValidRegistration | src/module/auth/validator/register-user.validator.ts:3-7 | an accepted payload has a password and a fullname that satisfy the schema's `required` checks |
| Auth.AuthService.CreateSession | src/module/auth/auth.service.ts:26-35 | appends exactly one new valid session for the user and returns its id |
| Auth.AuthService.GenerateToken | src/module/auth/auth.service.ts:59-73 | always creates one session first; without a secret it fails with "JWT_SECRET is not set", otherwise the token carries the user's id, email and verification flag and the new session's id, for "30d" |
| Auth.AuthService.SendEmailVerificationOtp | src/module/auth/auth.service.ts:37-46 | a known email gets an email-verification code with the `verify-email-via-otp` template; an unknown one leaves store and queue unchanged |
| Auth.AuthService.SendPasswordResetOtp | src/module/auth/auth.service.ts:48-57 | the same for a forgot-password code with the `reset-password-via-otp` template |
| Auth.AuthService.RegisterUser | src/module/auth/auth.service.ts:75-90 | as written: an invalid payload fails validation, an unknown email gets "User already exists", a known one gets duplicate key; the user table never changes |
| Auth.AuthService.RegisterUserCorrected | src/module/auth/auth.service.ts:75-90 | a known email is refused; an unknown one is appended as an unverified user holding the hash of the password |
| Auth.AuthService.AuthenticateDocument | src/module/auth/auth.service.ts:100-106 | a loaded document with no password makes bcrypt reject; a mismatch is "Invalid credentials" with no session; a match issues a token through `generateToken` |
| Auth.AuthService.LoginUser | src/module/auth/auth.service.ts:92-107 | as written: an unknown email gets "Invalid credentials", and every known email gets bcrypt's rejection, with no session created |
| Auth.AuthService.LoginUserCorrected | src/module/auth/auth.service.ts:92-107 | an unknown email and a wrong password both get "Invalid credentials" and create no session; the right password creates one new session and yields its token, or "JWT_SECRET is not set" when no secret is configured |
| Auth.AuthService.LogoutUser | src/module/auth/auth.service.ts:109-114 | the session table becomes `Invalidate` of the old one, and users are unchanged |
| Auth.AuthService.VerifyEmail | src/module/auth/auth.service.ts:116-136 | a refused code changes no user or session; an accepted one marks the user verified and returns a token whose flag is true, backed by one new session |
| Auth.AuthService.UpdatePasswordWithOtp | src/module/auth/auth.service.ts:138-158 | a refused code returns false and changes nothing; after an accepted one a missing user is "User not found", an empty password fails validation, and otherwise the stored password becomes the new one's hash; no session is created |
| Passport.StrategySecret | src/config/passport.ts:21-25 | the JWT strategy cannot be set up without a non-empty secret |
| Passport.JwtFromRequest | src/config/passport.ts:28-37 | a non-empty `token` cookie is used; otherwise the bearer token is used |
| Passport.VerifyJwtPayload | src/config/passport.ts:47-69 | an unknown user id is "no user" with no error; a known one is accepted exactly when the payload's session exists, belongs to that user and is valid, and otherwise it is "Session not found"; the accepted user carries the session's id |
| Passport.IssuedTokenLifecycle | src/config/passport.ts:51-62 | a token from `generateToken` is accepted with its own session, refused after that session's logout, and unaffected by the logout of any other session |
| Passport.ForeignSessionRejected | src/config/passport.ts:51-58 | a token naming another user's session is refused |
| Passport.PresentIds | src/config/passport.ts:75-79 | `filter(Boolean)` keeps exactly the ids that are set and non-empty |
| Passport.GoogleClientIds | src/config/passport.ts:75-82 | setup fails exactly when none of the three client ids is set; otherwise it accepts exactly the ids that are set |
| Passport.ProfileEmail | src/config/passport.ts:102-105 | no `emails` or an empty first email is "No email found"; an empty `emails` array fails on reading its first element; otherwise the first email is used |
| Passport.FindByGoogleIdOrEmail | src/config/passport.ts:106-108 | the first user whose googleId or email matches, or none exactly when none does |
| Passport.DecideGoogleLogin | src/config/passport.ts:106-124 | with no match a user is created; a match with another email is "Email already exists"; a match without a googleId is linked; otherwise the match is returned |
| Passport.LinkByEmail | src/config/passport.ts:113-116 | a password account is linked on the first Google sign-in with its email when no one holds that Google id |
| Passport.LinkedUserIsExisting | src/config/passport.ts:106-117 | a user holding a Google id is found, unchanged, on every later sign-in with that id and email |
| Passport.GoogleIdWithOtherEmailRefused | src/config/passport.ts:109-112 | a Google id held by a user with another email is refused when no user holds the profile's email |
| Passport.GoogleVerify | src/config/passport.ts:96-129 | as written: email errors and refusals change nothing; a link is saved unless an index refuses it; creating a user always fails validation |
| Passport.LinkGoogleId | src/config/passport.ts:113-116 | binding the Google id writes only that field and leaves the password hash in place, unless an index refuses it |
| Passport.GoogleVerifyCorrected | src/config/passport.ts:96-129 | the same decisions, but an unmatched profile with a name becomes a new, unverified, password-less user |
| Scenarios.OtpEmailShowsCode | src/module/otp/otp.service.ts:54-59 | for a template whose first `{{otp}}` follows `{`-free text, the email rendered for a `send-otp` job shows that text, then the issued code, then the rendering of the rest of the template |
| Scenarios.OtpSingleUse | src/module/otp/otp.service.ts:67-96 | a wrong guess fails, the right code then succeeds, and a replay fails |
| Scenarios.OtpExpiryAndPurpose | src/module/otp/otp.service.ts:85-88 | a code still works at its expiry instant and not one millisecond later; a reset code does not verify an email |
| Scenarios.OtpKeyInjectiveOnTypes | src/module/otp/otp.service.ts:35-36 | the two purposes never share a key for the same email |
| Scenarios.SessionLifecycle | src/module/auth/auth.service.ts:92-114 | two logins give two accepted tokens; after the first is logged out it is refused and the second is still accepted |
| Scenarios.RegisterOnEmptyDatabase | src/module/auth/auth.service.ts:79-85 | as written, registering on an empty database gives "User already exists" and adds no user |
| Scenarios.SecondUserAsDeclared | src/module/user/user.schema.ts:32-39 | with one user stored, a second account with another email is refused as declared and admitted under sparse indexes |
| Scenarios.LoginWithRightPassword | src/module/auth/auth.service.ts:96-106 | with the right password the as-written login gets bcrypt's rejection and the corrected one gets the token |
| Scenarios.FirstGoogleSignIn | src/config/passport.ts:118-124 | a first Google sign-in fails validation as written and creates the account when corrected |
| Scenarios.GoogleLinksPasswordAccount | src/config/passport.ts:109-117 | a Google sign-in with a password account's email binds the Google id and keeps the hash; the next sign-in finds the same user |
| Scenarios.VerifyEmailFlow | src/module/auth/auth.service.ts:116-136 | the sent code verifies the email and returns a token saying so; the same code fails the second time |
| Scenarios.PasswordResetFlow | src/module/auth/auth.service.ts:138-158 | the sent code stores the new password's hash and creates no session |

## Left out

- HTTP layer: controllers, routes, middleware, status codes and the controller's OTP-type dispatch are request plumbing.
- Infrastructure: Redis, BullMQ, sockets, the database connection and logging are I/O. The queue is an append-only job sequence. Queue retry, the worker, SMTP and reading template files are not modelled.
- The store's own `PX` eviction is not modelled, because the recorded `expiresAt` check gives the same verdicts. The read-then-delete race in `verifyOtp` is not modelled either, because the model is sequential.
- Cryptography: bcrypt salting, JWT signing, and the signature and expiry checks that passport-jwt makes are foreign. A token is the payload, secret and lifetime it was signed with. Verifying a Google access token is not modelled.
- Passport.JwtFromRequest: parsing the `Authorization` header into a bearer token is done by passport-jwt. The model takes the parsed token, or its absence, as input.
- Ids: positions in the collections stand for ObjectIds. A malformed id, which mongoose rejects with a cast error, cannot be expressed.
- Models.Database.Insert: reads the `googleId` and `appleId` unique indexes as sparse, so any number of users may lack a googleId. As declared they are not sparse and refuse every user after the first (see "## Findings"); `Models.Database.InsertAsDeclared` models that. `CreateUser`, `CreateGoogleUser`, `SaveUser`, `RegisterUserCorrected`, `GoogleVerifyCorrected` and the runs in `Scenarios` rely on the sparse reading. The `appleId` field is not stored, because no flow sets it.
- Passport.FindByGoogleIdOrEmail: when one user matches the googleId and another the email, MongoDB does not specify which one `findOne` returns. The model takes the earliest.
- Auth.ValidRegistration: only the registration payload's length checks are modelled (password of at least six characters, non-empty fullname). Lengths are counted in characters (code points), while zod's `.min` counts UTF-16 code units, so a password of three emoji (six code units) is accepted by the source and refused by the model. The email format check is library code; the flows that create users take a non-empty email as given.
- OTP types: the OTP_TYPE constants come from `otp.queue.ts`, which is not part of this model. The model takes them to be the literals "email-verification" and "forgot-password", which are the values the verification calls use.
- EmailTemplate.Lookup: variable names are looked up only among the map's own keys. JavaScript object prototype properties are not modelled.
- Timestamps (`createdAt`, `updatedAt`) and the session's `ipAddress` and `userAgent` are not modelled, because no flow reads or sets them.

## Findings

| source | as written | input that shows it | evidently intended | confidence | as-written member | corrected member |
|---|---|---|---|---|---|---|
| src/module/auth/auth.service.ts:81-83 | throws "User already exists" when no user has the email, and otherwise creates the user | any valid registration on an empty table gives "User already exists"; one for a known email gets a duplicate-key error, so no user is ever registered | refuse when a user is found, create when none is | high, not executed | Auth.AuthService.RegisterUser | Auth.AuthService.RegisterUserCorrected |
| src/module/auth/auth.service.ts:96-100 | compares the candidate with the password of a document loaded without it (`select: false` at src/module/user/user.schema.ts:30) | a registered email with its right password: bcrypt rejects with "data and hash arguments required", so no login succeeds, and the distinct error reveals that the email exists | load the document with its password and compare against the stored hash | high, not executed | Auth.AuthService.LoginUser | Auth.AuthService.LoginUserCorrected |
| src/config/passport.ts:119-123 | creates the Google user without a password, while the schema requires one (src/module/user/user.schema.ts:29) | a first Google sign-in with a named profile and an unused email fails validation, so no account is created | require a password only for accounts without a googleId | high, not executed | Passport.GoogleVerify | Passport.GoogleVerifyCorrected |
| src/module/user/user.schema.ts:32-39 | declares `googleId` and `appleId` unique without `sparse`, so MongoDB indexes every document lacking the field under null, and no flow ever sets `appleId` | with one user stored, any second insert, e.g. another email and no googleId: duplicate key on `appleId: null`, so at most one account can ever exist | unique only among documents that have the field (`sparse: true`) | high, not executed | Models.Database.InsertAsDeclared | Models.Database.Insert |
