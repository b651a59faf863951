/** One-time codes and their keyed digests, with HMAC-SHA-256 taken as injective. */
module Otp {
  import opened Domain
  import opened Rfc3339

  /** A keyed digest, identified with the key and the bytes that were fed to it. */
  datatype Mac = Hmac(pepper: string, message: string)

  /** Length of a hex-encoded SHA-256 digest, the form of a hashed phone number. */
  const HASH_LENGTH := 64

  const CODE_WIDTH := 6

  /** The zero-padded six-digit code for the random number `n`. */
  function GenerateOtp(n: nat): (code: string)
    requires n < Pow10(CODE_WIDTH)
    ensures |code| == 6 && Number(code) == Some(n)
  {
    NumberOfDigits(CODE_WIDTH, n);
    Digits(CODE_WIDTH, n)
  }

  /** The code, the hashed phone and the expiry text are fed one after the other, unseparated. */
  function ComputeOtpMac(pepper: string, code: string, phoneHash: string, expiresAt: string): Mac {
    Hmac(pepper, code + phoneHash + expiresAt)
  }

  predicate VerifyOtpMac(pepper: string, candidate: string, phoneHash: string, expiresAt: string, stored: Mac) {
    ComputeOtpMac(pepper, candidate, phoneHash, expiresAt) == stored
  }

  /** The concatenation is unambiguous for codes of any length, because both suffixes have a fixed length. */
  lemma MacBindsTriple(pepper: string, code: string, hash: string, at: string, code': string, hash': string,
                       at': string)
    requires |hash| == |hash'| && |at| == |at'|
    requires ComputeOtpMac(pepper, code, hash, at) == ComputeOtpMac(pepper, code', hash', at')
    ensures code == code' && hash == hash' && at == at'
  {
    var m, m' := code + hash + at, code' + hash' + at';
    var n, k := |code|, |code| + |hash|;
    assert m[..n] == code && m[n..k] == hash && m[k..] == at;
    assert |code'| == n;
    assert m'[..n] == code' && m'[n..k] == hash' && m'[k..] == at';
  }

  /** A candidate of any length passes against a stored row exactly when it is the generated code,
      for the phone and the expiry the row was written for. */
  lemma CandidateMatches(pepper: string, n: nat, hash: string, at: string, candidate: string, hash': string,
                         at': string)
    requires n < Pow10(CODE_WIDTH)
    requires |hash| == |hash'| && |at| == |at'|
    ensures VerifyOtpMac(pepper, candidate, hash', at', ComputeOtpMac(pepper, GenerateOtp(n), hash, at))
            <==> candidate == GenerateOtp(n) && hash' == hash && at' == at
  {
    if VerifyOtpMac(pepper, candidate, hash', at', ComputeOtpMac(pepper, GenerateOtp(n), hash, at)) {
      MacBindsTriple(pepper, candidate, hash', at', GenerateOtp(n), hash, at);
    }
  }
}
