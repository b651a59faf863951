/** Limits and durations of the domain, the shape of a phone number, and the definitions that all modules share. */
module Domain {
  const MAX_SESSIONS_PER_USER := 5
  const MAX_OTP_VERIFY_ATTEMPTS := 5
  const OTP_REQUEST_LIMIT_PER_PHONE := 3
  const OTP_REQUEST_LIMIT_PER_IP := 10

  // Durations, in seconds.
  const OTP_VALIDITY := 300
  const OTP_RATE_LIMIT_WINDOW := 900
  const OTP_LOCKOUT := 900
  const ACCESS_TOKEN_LIFETIME := 3600
  const REFRESH_TOKEN_LIFETIME := 30 * 24 * 3600

  /** Nanoseconds in a second: instants are in nanoseconds, stored times in seconds. */
  const NANOS := 1_000_000_000

  function OneIf(b: bool): nat {
    if b then 1 else 0
  }

  function Min(a: nat, b: nat): nat {
    if a < b then a else b
  }

  /** E.164: a plus sign, then seven to fifteen digits of which the first is not zero. */
  predicate ValidPhone(p: string) {
    && 8 <= |p| <= 16
    && p[0] == '+'
    && '1' <= p[1] <= '9'
    && forall i :: 2 <= i < |p| ==> '0' <= p[i] <= '9'
  }

  datatype Error =
    | ErrInvalidPhoneNumber | ErrInvalidInput
    | ErrRateLimited | ErrPhoneRateLimited | ErrIpRateLimited
    | ErrInvalidOtp | ErrNotFound | ErrAlreadyExists | ErrTransactionCanceled | ErrParse
    | ErrUnauthorized | ErrSessionRevoked | ErrSessionExpired | ErrDeviceMismatch
    | ErrRefreshTokenReuse | ErrInvalidRefreshToken
    | ErrUnavailable | ErrRedis

  datatype Option<+T> = None | Some(value: T)

  function Get<V>(m: map<string, V>, key: string): Option<V> {
    if key in m then Some(m[key]) else None
  }

  /** An expiring key with this expiry, if any, is still there. */
  predicate Lives(expiry: Option<int>, now: int) {
    expiry.Some? && now < expiry.value
  }

  datatype Result<+T> = Ok(value: T) | Err(error: Error)

  /** What becomes of one call to Redis: it is carried out and answered, it is not carried out, or it is carried
      out and the answer is lost. The last two look the same to the caller. */
  datatype Reply = Delivered | Refused | Lost

  lemma SubsetSize<T>(a: set<T>, b: set<T>)
    requires a <= b
    ensures |a| <= |b|
  {
    assert b == a + (b - a);
  }

  lemma UnionSize<T>(a: set<T>, b: set<T>)
    ensures |a + b| == |a| + |b| - |a * b|
  {
  }
}
