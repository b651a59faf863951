/** How the service fills its records: identifiers hashed, times written as text, expiries computed. */
module Records {
  import opened Domain
  import opened Rfc3339
  import opened Otp
  import opened Tables

  /** The digest key of the service, SHA-256 of a phone number in hexadecimal, and the two directions
      between a time in seconds and its stored text. */
  datatype Env = Env(pepper: string, hash: string -> string, text: int -> string, read: string -> Option<int>)

  /** All the protocol relies on about stored times: reading gives the second back, and text order is
      time order. */
  ghost predicate TextOk(env: Env) {
    && (forall a | InRange(a) :: |env.text(a)| == 20 && env.read(env.text(a)) == Some(a))
    && (forall a, b {:trigger TextLess(env.text(a), env.text(b))} |
          InRange(a) && InRange(b) :: TextLess(env.text(a), env.text(b)) <==> a < b)
  }

  /** RFC 3339 text has these properties. */
  lemma Rfc3339TextOk(pepper: string, hash: string -> string)
    ensures TextOk(Env(pepper, hash, sec => if InRange(sec) then Format(sec) else "", Parse))
  {
    var text := (sec: int) => if InRange(sec) then Format(sec) else "";
    forall a | InRange(a)
      ensures |text(a)| == 20 && Parse(text(a)) == Some(a)
    {
      DivisionIsUnique(a * NANOS, NANOS, a, 0);
      ParseFormat(a * NANOS);
    }
    forall a, b | InRange(a) && InRange(b)
      ensures TextLess(text(a), text(b)) <==> a < b
    {
      FormatOrder(a, b);
    }
  }

  lemma {:induction false} NumberReads(s: string)
    ensures Number(s).Some? <==> forall i :: 0 <= i < |s| ==> '0' <= s[i] <= '9'
    ensures Number(s).Some? && s != "" ==> (Number(s).value >= Pow10(|s| - 1) <==> s[0] != '0')
  {
    if s != "" {
      var front, c := s[..|s| - 1], s[|s| - 1];
      NumberReads(front);
      assert s == front + [c];
    }
  }

  /** A phone number is valid exactly when it is a plus sign and a number of seven to fifteen digits without a leading
      zero. */
  lemma ValidPhoneIsNumber(p: string)
    ensures ValidPhone(p) <==>
            && 8 <= |p| <= 16 && p[0] == '+'
            && Number(p[1..]).Some? && Number(p[1..]).value >= Pow10(|p| - 2)
  {
    if 8 <= |p| <= 16 {
      NumberReads(p[1..]);
      assert forall i :: 0 <= i < |p| - 1 ==> p[1..][i] == p[i + 1];
      assert forall i :: 1 <= i < |p| ==> p[i] == p[1..][i - 1];
    }
  }

  /** Hashes of valid phones have their fixed length and do not collide. */
  ghost predicate CollisionFree(env: Env) {
    && (forall p | ValidPhone(p) :: |env.hash(p)| == HASH_LENGTH)
    && (forall p, q | ValidPhone(p) && ValidPhone(q) && env.hash(p) == env.hash(q) :: p == q)
  }

  /** A stand-in for the hash: the phone, padded on the left to the length of a digest. */
  function PadPhone(phone: string): string {
    if |phone| <= HASH_LENGTH then seq(HASH_LENGTH - |phone|, _ => '0') + phone else phone
  }

  lemma PadPhoneInjective(p: string, q: string)
    requires ValidPhone(p) && ValidPhone(q) && PadPhone(p) == PadPhone(q)
    ensures p == q
  {
    var s := PadPhone(p);
    assert s[HASH_LENGTH - |p|] == '+' && s[HASH_LENGTH - |q|] == '+';
    assert s[HASH_LENGTH - |p|..] == p && s[HASH_LENGTH - |q|..] == q;
  }

  /** The two assumptions on the environment can hold together. */
  lemma EnvironmentExists(pepper: string) returns (env: Env)
    ensures TextOk(env) && CollisionFree(env) && env.pepper == pepper
  {
    Rfc3339TextOk(pepper, PadPhone);
    env := Env(pepper, PadPhone, sec => if InRange(sec) then Format(sec) else "", Parse);
    forall p, q | ValidPhone(p) && ValidPhone(q) && env.hash(p) == env.hash(q)
      ensures p == q
    {
      PadPhoneInjective(p, q);
    }
  }

  // ---------------------------------------------------------------- times

  /** The text written for instant `t`, which drops the fraction of a second. */
  function Stamp(env: Env, t: int): string {
    env.text(SecondsOf(t))
  }

  /** The clock, and every expiry computed from it, lies in the years 0000 to 9999. */
  predicate ClockOk(t: int) {
    InRange(SecondsOf(t)) && InRange(SecondsOf(t) + REFRESH_TOKEN_LIFETIME)
  }

  /** `now.After(parse(expiresAt))`; text that does not parse is treated as an error by the caller. */
  predicate ExpiredAt(env: Env, expiresAt: string, now: int) {
    match env.read(expiresAt)
    case None => true
    case Some(e) => now > e * NANOS
  }

  /** The stored expiry is this very instant. */
  predicate ExpiresNow(env: Env, expiresAt: string, now: int) {
    match env.read(expiresAt)
    case None => false
    case Some(e) => now == e * NANOS
  }

  /** A stored expiry is the text of its ttl. */
  predicate ExpiryOk(env: Env, expiresAt: string, ttl: int) {
    InRange(ttl) && expiresAt == env.text(ttl)
  }

  lemma ExpiryStamp(env: Env, at: int, seconds: nat)
    requires ClockOk(at) && seconds <= REFRESH_TOKEN_LIFETIME
    ensures ExpiryOk(env, Stamp(env, at + seconds * NANOS), SecondsOf(at + seconds * NANOS))
    ensures SecondsOf(at + seconds * NANOS) == SecondsOf(at) + seconds
  {
    DivisionIsUnique(at + seconds * NANOS, NANOS, SecondsOf(at) + seconds, at % NANOS);
  }

  // ---------------------------------------------------------------- records

  function NewOtp(env: Env, phone: string, code: string, at: int): OtpRow {
    var expiry := at + OTP_VALIDITY * NANOS;
    OtpRow(ComputeOtpMac(env.pepper, code, env.hash(phone), Stamp(env, expiry)),
           Stamp(env, at), Stamp(env, expiry), Pending, 0, SecondsOf(expiry))
  }

  function NewSession(env: Env, id: string, user: string, device: string, token: string, at: int): Session {
    var expiry := at + REFRESH_TOKEN_LIFETIME * NANOS;
    Session(id, user, device, Sha256(token), NoHash, 1, Stamp(env, at), Stamp(env, expiry), SecondsOf(expiry))
  }

  function Rotated(env: Env, s: Session, token: string, at: int): Session {
    var expiry := at + REFRESH_TOKEN_LIFETIME * NANOS;
    s.(refreshHash := Sha256(token), prevHash := s.refreshHash, generation := s.generation + 1,
       expiresAt := Stamp(env, expiry), ttl := SecondsOf(expiry))
  }

  /** End to end: against the row that a request for `phone` writes, a candidate of any length presented for any
      phone passes exactly when it is the generated code and the phone is the same. */
  lemma RequestedCodeIsAccepted(env: Env, phone: string, n: nat, at: int, candidate: string, presented: string)
    requires TextOk(env) && CollisionFree(env) && ClockOk(at) && n < Pow10(CODE_WIDTH)
    requires ValidPhone(phone) && ValidPhone(presented)
    ensures var row := NewOtp(env, phone, GenerateOtp(n), at);
            VerifyOtpMac(env.pepper, candidate, env.hash(presented), row.expiresAt, row.mac)
            <==> candidate == GenerateOtp(n) && presented == phone
  {
    var row := NewOtp(env, phone, GenerateOtp(n), at);
    CandidateMatches(env.pepper, n, env.hash(phone), row.expiresAt, candidate, env.hash(presented), row.expiresAt);
  }

  /** Two OTPs of one phone have the same pair of digest and expiry exactly when they carry the same code and were
      built in the same second. */
  lemma PairRepeatsExactly(env: Env, phone: string, n: nat, at: int, n': nat, at': int)
    requires TextOk(env) && ClockOk(at) && ClockOk(at') && n < Pow10(CODE_WIDTH) && n' < Pow10(CODE_WIDTH)
    ensures var row, row' := NewOtp(env, phone, GenerateOtp(n), at), NewOtp(env, phone, GenerateOtp(n'), at');
            row.mac == row'.mac && row.expiresAt == row'.expiresAt <==> n == n' && SecondsOf(at) == SecondsOf(at')
  {
    var row, row' := NewOtp(env, phone, GenerateOtp(n), at), NewOtp(env, phone, GenerateOtp(n'), at');
    ExpiryStamp(env, at, OTP_VALIDITY);
    ExpiryStamp(env, at', OTP_VALIDITY);
    if row.mac == row'.mac && row.expiresAt == row'.expiresAt {
      MacBindsTriple(env.pepper, GenerateOtp(n), env.hash(phone), row.expiresAt,
                     GenerateOtp(n'), env.hash(phone), row'.expiresAt);
      assert env.read(row.expiresAt) == Some(SecondsOf(at) + OTP_VALIDITY);
    }
  }
}
