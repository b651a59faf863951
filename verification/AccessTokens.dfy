/** Access tokens: what a minted token claims, what validation checks, and how long a revocation key has to
    live to cover a token. Signatures are abstract; instants are in nanoseconds, claims in seconds. */
module AccessTokens {
  import opened Domain
  import opened Rfc3339

  const REVOKED_TTL := 3600

  /** A token as the parser sees it. `signatureOk` says that the signature verifies under the key `kid`. */
  datatype Token =
    | Garbage
    | Token(alg: string, kid: string, signatureOk: bool, iss: string, aud: seq<string>,
            exp: Option<int>, nbf: Option<int>, sub: string, jti: string, sid: string)

  datatype Claims = Claims(sub: string, jti: string, sid: string)

  datatype Validator = Validator(issuer: string, audience: string)

  datatype TokenError = Malformed | Unverifiable | SignatureInvalid | Expired | NotValidYet
                      | InvalidAudience | InvalidIssuer | RequiredClaimMissing

  /** Claims are all checked and their errors joined; `exp` is required, and `now` must be before it. */
  function ClaimErrors(v: Validator, t: Token, now: int): set<TokenError>
    requires t.Token?
  {
    (match t.exp case None => {RequiredClaimMissing} case Some(e) => if now < e * NANOS then {} else {Expired})
    + (match t.nbf case None => {} case Some(n) => if now < n * NANOS then {NotValidYet} else {})
    + (if t.aud == [] then {RequiredClaimMissing} else if v.audience in t.aud then {} else {InvalidAudience})
    + (if t.iss == "" then {RequiredClaimMissing} else if t.iss == v.issuer then {} else {InvalidIssuer})
  }

  /** The errors of parsing; claims are looked at only once the signature has been verified. */
  function ParseErrors(v: Validator, kids: set<string>, t: Token, now: int): set<TokenError> {
    match t
    case Garbage => {Malformed}
    case Token(_, _, _, _, _, _, _, _, _, _) =>
      if t.alg != "RS256" then {SignatureInvalid}
      else if t.kid == "" || t.kid !in kids then {Unverifiable}
      else if !t.signatureOk then {SignatureInvalid}
      else ClaimErrors(v, t, now)
  }

  /** The error set holds expiry and none of the other validation errors. */
  predicate OnlyExpired(errors: set<TokenError>) {
    && Expired in errors
    && Malformed !in errors && Unverifiable !in errors && SignatureInvalid !in errors && NotValidYet !in errors
    && InvalidAudience !in errors && InvalidIssuer !in errors && RequiredClaimMissing !in errors
  }

  /** A token is accepted exactly when it is signed by a known key, names a session, comes from the issuer for the
      audience, has begun to be valid and carries an expiry that is ahead, or may be past when expiry is ignored. */
  function ParseToken(v: Validator, kids: set<string>, t: Token, now: int, ignoreExpiry: bool): (r: Result<Claims>)
    ensures r.Ok? <==>
            && t.Token? && t.alg == "RS256" && t.kid != "" && t.kid in kids && t.signatureOk
            && t.sid != "" && t.iss != "" && t.iss == v.issuer && v.audience in t.aud
            && (t.nbf.Some? ==> t.nbf.value * NANOS <= now)
            && t.exp.Some? && (ignoreExpiry || now < t.exp.value * NANOS)
    ensures r == if r.Ok? then Ok(Claims(t.sub, t.jti, t.sid)) else Err(ErrUnauthorized)
  {
    var errors := ParseErrors(v, kids, t, now);
    if errors != {} && !(ignoreExpiry && OnlyExpired(errors)) then Err(ErrUnauthorized)
    else if t.Garbage? || t.sid == "" then Err(ErrUnauthorized)
    else Ok(Claims(t.sub, t.jti, t.sid))
  }

  /** Ignoring expiry waives exactly that: a token passes if and only if the same token with an expiry that
      is still ahead passes full validation, and it does carry some expiry. */
  lemma IgnoreExpiryWaivesOnlyExpiry(v: Validator, kids: set<string>, t: Token, now: int, later: int)
    requires now < later * NANOS
    ensures ParseToken(v, kids, t, now, true).Ok?
            <==> t.Token? && t.exp.Some? && ParseToken(v, kids, t.(exp := Some(later)), now, false).Ok?
  {
  }

  /** The claims of a token minted at `now` with lifetime `ttl` in seconds: the expiry is cut to the second. */
  function Mint(v: Validator, kid: string, sub: string, sid: string, jti: string, ttl: nat, now: int): Token {
    Token("RS256", kid, true, v.issuer, [v.audience], Some(SecondsOf(now + ttl * NANOS)), None, sub, jti, sid)
  }

  /** A freshly minted token passes full validation until its expiry and never again, and identifies its session. */
  lemma MintedTokenValidity(v: Validator, kids: set<string>, kid: string, sub: string, sid: string, jti: string,
                            ttl: nat, minted: int, now: int)
    requires kid != "" && kid in kids && sid != "" && v.issuer != ""
    ensures var t := Mint(v, kid, sub, sid, jti, ttl, minted);
            && (ParseToken(v, kids, t, now, false).Ok? <==> now < SecondsOf(minted + ttl * NANOS) * NANOS)
            && ParseToken(v, kids, t, now, true) == Ok(Claims(sub, jti, sid))
  {
    var t := Mint(v, kid, sub, sid, jti, ttl, minted);
    assert v.audience in t.aud;
    assert ClaimErrors(v, t, now) == if now < t.exp.value * NANOS then {} else {Expired};
  }

  // ---------------------------------------------------------------- revocation

  class RevocationStore {
    var keys: map<string, int>

    constructor ()
      ensures keys == map[]
    {
      keys := map[];
    }

    method Revoke(jti: string, now: int, reply: Reply) returns (failed: bool)
      modifies this
      ensures keys == if reply.Refused? then old(keys) else old(keys)[jti := now + REVOKED_TTL * NANOS]
      ensures failed <==> !reply.Delivered?
    {
      if reply != Refused {
        keys := keys[jti := now + REVOKED_TTL * NANOS];
      }
      failed := reply != Delivered;
    }

    /** Fails closed: without an answer the token counts as revoked. */
    method IsRevoked(jti: string, now: int, reply: Reply) returns (revoked: bool, failed: bool)
      ensures revoked <==> !reply.Delivered? || Lives(Get(keys, jti), now)
      ensures failed <==> !reply.Delivered?
    {
      if reply != Delivered {
        return true, true;
      }
      revoked, failed := jti in keys && now < keys[jti], false;
    }
  }

  /** The keys after revoking `revoked[i].0` at `revoked[i].1`, in order. */
  function RevokeAll(revoked: seq<(string, int)>): map<string, int> {
    if revoked == [] then map[]
    else
      var (jti, at) := revoked[|revoked| - 1];
      RevokeAll(revoked[..|revoked| - 1])[jti := at + REVOKED_TTL * NANOS]
  }

  /** A revocation is never shortened by later ones. */
  lemma {:induction false} RevocationLasts(revoked: seq<(string, int)>, i: nat)
    requires i < |revoked| && forall j, k :: 0 <= j <= k < |revoked| ==> revoked[j].1 <= revoked[k].1
    ensures var keys := RevokeAll(revoked);
            revoked[i].0 in keys && revoked[i].1 + REVOKED_TTL * NANOS <= keys[revoked[i].0]
  {
    if i < |revoked| - 1 {
      RevocationLasts(revoked[..|revoked| - 1], i);
    }
  }

  /** An id counts as revoked exactly for 3600 s after each of its revocations, whatever else is revoked. */
  lemma {:induction false} RevokedExactly(revoked: seq<(string, int)>, jti: string, now: int)
    requires forall j, k :: 0 <= j <= k < |revoked| ==> revoked[j].1 <= revoked[k].1
    ensures Lives(Get(RevokeAll(revoked), jti), now) <==>
            exists i: nat | i < |revoked| :: revoked[i].0 == jti && now < revoked[i].1 + 3600 * NANOS
  {
    if revoked != [] {
      var n := |revoked| - 1;
      RevokedExactly(revoked[..n], jti, now);
      assert forall i: nat | i < n :: revoked[..n][i] == revoked[i];
      if revoked[n].0 == jti {
        assert forall i: nat | i < n :: revoked[i].1 <= revoked[n].1;
      }
    }
  }

  /** A token minted with lifetime `ttl` and revoked later is, at `now`, either under a live revocation key
      or past its expiry. */
  predicate CoveredAt(ttl: nat, minted: int, revokedAt: int, now: int) {
    now < revokedAt + REVOKED_TTL * NANOS || SecondsOf(minted + ttl * NANOS) * NANOS <= now
  }

  ghost predicate RevocationCovers(ttl: nat) {
    forall minted, revokedAt, now | minted <= revokedAt <= now :: CoveredAt(ttl, minted, revokedAt, now)
  }

  /** The fixed key lifetime covers every token exactly when access tokens live no longer than it. */
  lemma RevocationCoversExactly(ttl: nat)
    ensures RevocationCovers(ttl) <==> ttl <= 3600
  {
    if ttl > REVOKED_TTL {
      DivisionIsUnique(ttl * NANOS, NANOS, ttl, 0);
      assert !CoveredAt(ttl, 0, 0, REVOKED_TTL * NANOS);
    }
  }

  /** In the service as configured: once a minted token's id is among the revocations, and whatever else is
      revoked around it, no later check both misses the key and passes full validation. */
  lemma RevokedTokenIsRefused(v: Validator, kids: set<string>, kid: string, sub: string, sid: string, jti: string,
                              minted: int, revoked: seq<(string, int)>, i: nat, now: int)
    requires i < |revoked| && revoked[i].0 == jti && minted <= revoked[i].1
    requires forall j, k :: 0 <= j <= k < |revoked| ==> revoked[j].1 <= revoked[k].1
    requires revoked[|revoked| - 1].1 <= now
    ensures var t := Mint(v, kid, sub, sid, jti, ACCESS_TOKEN_LIFETIME, minted);
            Lives(Get(RevokeAll(revoked), jti), now) || !ParseToken(v, kids, t, now, false).Ok?
  {
    RevocationLasts(revoked, i);
    RevocationCoversExactly(ACCESS_TOKEN_LIFETIME);
    assert CoveredAt(ACCESS_TOKEN_LIFETIME, minted, revoked[i].1, now);
    var t := Mint(v, kid, sub, sid, jti, ACCESS_TOKEN_LIFETIME, minted);
    if t.exp.value * NANOS <= now {
      assert Expired in ClaimErrors(v, t, now);
    }
  }
}
