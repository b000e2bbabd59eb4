/** The OTP engine: one-time codes kept in a keyed store under
    `otp:<email>:<type>`, each with an expiry, and an append-only queue of
    delivery jobs. The store is the Redis client and the queue the BullMQ
    queue, both seen as plain values. */
module OtpEngine {
  import opened Wrappers
  import opened Decimal

  /** Lifetime of a code, in milliseconds (5 minutes). */
  const OtpTtlMs: int := 5 * 60 * 1000

  /** The two purposes a code is issued for (`OTP_TYPE`). */
  datatype OtpType = EmailVerification | ForgotPassword

  function TypeName(t: OtpType): string {
    match t
    case EmailVerification => "email-verification"
    case ForgotPassword => "forgot-password"
  }

  /** The value stored under a key: `{ otp, expiresAt }`. */
  datatype OtpRecord = OtpRecord(otp: string, expiresAt: int)

  /** The email template a job asks the worker to render. */
  datatype Template = Template(name: string, variables: map<string, string>)

  /** A queued `send-otp` job. */
  datatype Job = Job(name: string, email: string, otp: string, template: Template)

  const SendOtpJobName := "send-otp"

  function SendOtpJob(email: string, templateName: string, otp: string): Job {
    Job(SendOtpJobName, email, otp, Template(templateName, map["otp" := otp]))
  }

  // ---------------------------------------------------------------------
  // The store key

  function OtpEmailRedisKey(email: string, otpType: string): (k: string)
    ensures |k| == |email| + |otpType| + 5
    ensures k[..4] == "otp:" && k[4..4 + |email|] == email
    ensures k[4 + |email|] == ':' && k[5 + |email|..] == otpType
  {
    "otp:" + email + ":" + otpType
  }

  /** Position of the first `c` in `s`. */
  function IndexOf(s: string, c: char): (r: Option<nat>)
    ensures r.Some? ==> r.value < |s| && s[r.value] == c && c !in s[..r.value]
    ensures r.None? ==> c !in s
  {
    if s == [] then None
    else if s[0] == c then Some(0)
    else match IndexOf(s[1..], c)
      case Some(k) =>
        assert s[..k + 1] == [s[0]] + s[1..][..k];
        Some(k + 1)
      case None => None
  }

  /** Splits a store key back into its email and type, cutting at the first
      `:` after the `otp:` prefix. */
  function ParseOtpKey(key: string): Option<(string, string)> {
    if |key| < 4 || key[..4] != "otp:" then None
    else
      var rest := key[4..];
      match IndexOf(rest, ':')
      case Some(k) => Some((rest[..k], rest[k + 1..]))
      case None => None
  }

  /** The key can be split back into its parts when the email holds no `:`. */
  lemma {:induction false} ParseOtpKeyRoundTrip(email: string, otpType: string)
    requires ':' !in email
    ensures ParseOtpKey(OtpEmailRedisKey(email, otpType)) == Some((email, otpType))
  {
    var key := OtpEmailRedisKey(email, otpType);
    assert key[..4] == "otp:";
    var rest := key[4..];
    assert rest == email + ":" + otpType;
    var k := |email|;
    assert rest[k] == ':' && rest[..k] == email;
    var r := IndexOf(rest, ':');
    assert r.Some?;
    var j := r.value;
    assert j == k;
    assert rest[k + 1..] == otpType;
  }

  /** Distinct (email, type) pairs get distinct keys, so the two purposes
      and different users never share a record, when no email holds `:`. */
  lemma OtpKeyInjective(e1: string, t1: string, e2: string, t2: string)
    requires ':' !in e1 && ':' !in e2
    requires OtpEmailRedisKey(e1, t1) == OtpEmailRedisKey(e2, t2)
    ensures e1 == e2 && t1 == t2
  {
    ParseOtpKeyRoundTrip(e1, t1);
    ParseOtpKeyRoundTrip(e2, t2);
  }

  /** Without that restriction keys do collide. */
  lemma OtpKeyCollidesOnColon()
    ensures OtpEmailRedisKey("a:b", "c") == OtpEmailRedisKey("a", "b:c")
  {
  }

  // ---------------------------------------------------------------------
  // What issuing and verifying do to the store, as functions of its old value

  /** The store after a code is issued under `key` at time `now`. */
  function AfterIssue(store: map<string, OtpRecord>, key: string, code: string, now: int): map<string, OtpRecord> {
    store[key := OtpRecord(code, now + OtpTtlMs)]
  }

  /** Whether verifying `code` under `key` at time `now` succeeds. */
  predicate Accepts(store: map<string, OtpRecord>, key: string, code: string, now: int) {
    key in store && now <= store[key].expiresAt && store[key].otp == code
  }

  /** The store after verifying `code` under `key` at time `now`: an expired
      record is dropped, an accepted one is consumed, anything else stays. */
  function AfterVerify(store: map<string, OtpRecord>, key: string, code: string, now: int): map<string, OtpRecord> {
    if key !in store then store
    else if now > store[key].expiresAt then store - {key}
    else if store[key].otp == code then store - {key}
    else store
  }

  /** The four outcomes of verification, and that no other key is touched. */
  lemma VerifyOutcomes(store: map<string, OtpRecord>, key: string, code: string, now: int)
    ensures key !in store ==> !Accepts(store, key, code, now) && AfterVerify(store, key, code, now) == store
    ensures key in store && now > store[key].expiresAt ==>
      !Accepts(store, key, code, now) && AfterVerify(store, key, code, now) == store - {key}
    ensures key in store && now <= store[key].expiresAt && store[key].otp == code ==>
      Accepts(store, key, code, now) && AfterVerify(store, key, code, now) == store - {key}
    ensures key in store && now <= store[key].expiresAt && store[key].otp != code ==>
      !Accepts(store, key, code, now) && AfterVerify(store, key, code, now) == store
    ensures forall k :: k != key ==>
      (k in AfterVerify(store, key, code, now) <==> k in store)
    ensures forall k :: k != key && k in store ==> AfterVerify(store, key, code, now)[k] == store[k]
  {
  }

  /** A freshly issued code is accepted exactly once while it is live. */
  lemma IssuedCodeSingleUse(store: map<string, OtpRecord>, key: string, code: string, now: int, t1: int, t2: int)
    requires now <= t1 <= now + OtpTtlMs
    ensures Accepts(AfterIssue(store, key, code, now), key, code, t1)
    ensures !Accepts(AfterVerify(AfterIssue(store, key, code, now), key, code, t1), key, code, t2)
  {
  }

  /** A wrong guess keeps the record, so the right code still works later. */
  lemma WrongCodeThenRightCode(store: map<string, OtpRecord>, key: string, code: string, guess: string, now: int, t1: int, t2: int)
    requires guess != code
    requires now <= t1 <= t2 <= now + OtpTtlMs
    ensures !Accepts(AfterIssue(store, key, code, now), key, guess, t1)
    ensures AfterVerify(AfterIssue(store, key, code, now), key, guess, t1) == AfterIssue(store, key, code, now)
    ensures Accepts(AfterVerify(AfterIssue(store, key, code, now), key, guess, t1), key, code, t2)
  {
  }

  /** Past its expiry no code is accepted, the right one included. */
  lemma ExpiredCodeRejected(store: map<string, OtpRecord>, key: string, code: string, now: int, t: int, presented: string)
    requires t > now + OtpTtlMs
    ensures !Accepts(AfterIssue(store, key, code, now), key, presented, t)
    ensures key !in AfterVerify(AfterIssue(store, key, code, now), key, presented, t)
  {
  }

  /** Issuing for one (email, type) does not change whether a code for a
      different pair is accepted, when neither email contains `:`. */
  lemma IssueIsolated(store: map<string, OtpRecord>, email: string, t: string, email': string, t': string,
                      code: string, now: int, code': string, later: int)
    requires ':' !in email && ':' !in email'
    requires (email, t) != (email', t')
    ensures Accepts(AfterIssue(store, OtpEmailRedisKey(email, t), code, now), OtpEmailRedisKey(email', t'), code', later)
        == Accepts(store, OtpEmailRedisKey(email', t'), code', later)
  {
    if OtpEmailRedisKey(email, t) == OtpEmailRedisKey(email', t') {
      OtpKeyInjective(email, t, email', t');
    }
  }

  // ---------------------------------------------------------------------
  // The service

  class OtpService {
    /** The Redis store of OTP records. */
    var store: map<string, OtpRecord>
    /** Every job ever added to the delivery queue, oldest first. */
    var jobs: seq<Job>

    constructor ()
      ensures store == map[] && jobs == []
    {
      store := map[];
      jobs := [];
    }

    /** Issues a code: `random` is the value `crypto.randomInt(100000, 999999)`
        drew and `now` the clock. Overwrites the record for the key and queues
        exactly one delivery job. */
    method GenerateAndSendOtp(email: string, templateName: string, otpType: OtpType, now: int, random: int)
      requires 100000 <= random < 999999
      modifies this
      ensures store == AfterIssue(old(store), OtpEmailRedisKey(email, TypeName(otpType)), DecimalString(random), now)
      ensures jobs == old(jobs) + [SendOtpJob(email, templateName, DecimalString(random))]
      ensures |DecimalString(random)| == 6 && AllDigits(DecimalString(random))
    {
      SixDigitCode(random);
      var otp := DecimalString(random);
      var expiresAt := now + OtpTtlMs;
      var key := OtpEmailRedisKey(email, TypeName(otpType));
      store := store[key := OtpRecord(otp, expiresAt)];
      var template := Template(templateName, map["otp" := otp]);
      jobs := jobs + [Job(SendOtpJobName, email, otp, template)];
    }

    /** Checks `otp` against the record for (email, type) at time `now`. */
    method VerifyOtp(email: string, otp: string, otpType: string, now: int) returns (ok: bool)
      modifies this
      ensures ok == Accepts(old(store), OtpEmailRedisKey(email, otpType), otp, now)
      ensures store == AfterVerify(old(store), OtpEmailRedisKey(email, otpType), otp, now)
      ensures jobs == old(jobs)
    {
      var key := OtpEmailRedisKey(email, otpType);
      if key !in store {
        return false;
      }
      var data := store[key];
      if now > data.expiresAt {
        store := store - {key};
        return false;
      }
      if data.otp == otp {
        store := store - {key};
        return true;
      }
      return false;
    }
  }
}
