# Phone-OTP authentication, verified

A Dafny model of the authentication subsystem of the chat management service, with proofs of what its stores, its
conditional writes and its clocks guarantee together. The service logs users in with one-time codes sent to their
phone. Its only synchronisation is conditional writes and multi-table transactions on three DynamoDB tables
(`otp_requests`, `users`, `sessions`), beside expiring keys in Redis and a cache of public keys.

| file | contents |
|---|---|
| `Domain.dfy` | constants, errors and the definitions that all modules share |
| `Rfc3339.dfy` | timestamps as text: the calendar, formatting, parsing, text order |
| `Otp.dfy` | six-digit codes and their keyed digests |
| `Tables.dfy` | rows, the conditions of the conditional writes, the two transactions |
| `Records.dfy` | how records are filled, and what the rest needs to know about time text and hashes |
| `Eviction.dfy` | which sessions a login removes |
| `Outcomes.dfy` | what each flow may do to the tables, and what a login leaves behind |
| `Stores.dfy`, `RateLimit.dfy`, `AccessTokens.dfy`, `AuthService.dfy` | the adapters and the four flows as objects |
| `Protocol.dfy` | the login protocol as a transition system of interleaved requests |
| `ProtocolHistory.dfy`, `ProtocolLimit.dfy`, `ProtocolOrder.dfy`, `ProtocolTheorems.dfy`, `PhoneLimit.dfy` | its invariants and theorems |
| `ProtocolPaths.dfy`, `WitnessRuns.dfy`, `LockWitness.dfy` | building runs, and runs that show bounds and assumptions to be sharp |
| `SerialCalls.dfy`, `SerialChain.dfy`, `ServiceRuns.dfy` | serial runs of whole calls are runs of the protocol, of the refresh chain and of the checks |
| `ServiceLimits.dfy` | limits and lockouts over runs of the service, by the times of the calls |
| `Biographies.dfy` | where each stored session, OTP and user comes from, over serial runs |
| `RefreshChain.dfy` | refresh-token rotation and reuse detection over serial runs |
| `VerifyCall.dfy` | the checks of one verification, and the guessing bounds over serial runs |
| `KeyCache.dfy` | the public-key cache |
| `TtlRemoval.dfy` | what TTL removal leaves unchanged, and exactly when it can be observed |

## How it is modelled

**Interleaving.** `Protocol` has any number of `RequestOTP` and `VerifyOTP` calls in flight. Every store call and
every clock reading is one step, a call may stop anywhere (that is how a failing store call shows), and logouts, whole
refresh calls, clock ticks and TTL removals are further steps. A history that the code never reads records OTPs issued,
sessions committed and pending OTPs removed. The theorems quantify over all runs from empty tables.

**Assumptions, each written where it is used.**
- Hashes of valid phones have 64 characters and do not collide (`CollisionFree`); HMAC and SHA-256 of tokens are
  injective by construction. `Records.EnvironmentExists` shows that the assumptions on the environment can hold together.
- Stored time text reads back and is ordered like time (`TextOk`); `Records.Rfc3339TextOk` proves it for RFC 3339 text.
  The clock, plus thirty days, stays in the years 0000 to 9999, and does not go back.
- `Benign` runs, for the session limit, the lock and single use only: a pair of digest and expiry is not stored again
  for a phone once a session was created since it was stored first (pairs repeat exactly when the same code is drawn
  twice in one second, `Records.PairRepeatsExactly`), and no refresh falls on the very nanosecond at which its session
  expires. Both are exact, and runs show what happens without them: `ProtocolLimit.PutKeepsLocksExactly` with
  `LockWitness.RepeatedPairLosesLock`, and `ProtocolTheorems.RefreshKeepsLimitExactly` with
  `WitnessRuns.RefreshAtExpiryExceedsLimit`.
- The session index is exact. The users index may lag: it may always answer nothing. Identifiers need not be fresh in
  the protocol, only shaped like UUIDs; serial refresh runs do assume fresh identifiers and tokens.

**Two views.** `AuthService` has the flows as methods on objects, with limits, lockouts and Redis calls that may be
refused or lose their answer. Every method states its effect with the predicates of `Outcomes`. A service run
(`ServiceRuns.IsServiceRun`) is a sequence of such effects, of whole calls and of TTL removals. Its tables are those of a
run of the protocol, failing calls included; what concerns one phone is a run of the checks in `VerifyCall`; and its
sessions are those of a run of the refresh chain, call by call. So the theorems about each of these hold of the objects.
Where a theorem is about benign runs, the calls have to be strict (`SerialCalls.IsStrict`): no two requests that store an
OTP for one phone store the same pair of digest and expiry, and no effective refresh comes at the very expiry.

**Where the code and its documents differ, the code is modelled.** A failed OTP condition is reported as "already
exists". Evictions happen before the commit and stay when it fails, and they set a revocation key under the session id,
not under a token id. The refresh update is unconditional, although the design record asks for a condition.

**What is false of the code, and exactly when it holds.**
- Five sessions for each phone: the sentinel row carries the phone number too, and the lookup takes whichever row comes
  first, so each of the two rows has its own limit. A login keeps the phone within five exactly under the condition of
  `PhoneLimit.LoginKeepsPhoneLimitExactly`; `WitnessRuns.PhoneLimitIsAttained` is a run with ten.
- A session is listed while now < expiry, but can be refreshed while now <= expiry: the limit then holds exactly under
  the condition of `ProtocolTheorems.RefreshKeepsLimitExactly`; `WitnessRuns.RefreshAtExpiryExceedsLimit` is a run with six.
- TTL removal never changes whether the next call succeeds (`TtlRemoval.VerificationUnaffected` and its companions), but
  it spares the lockout that an exhausted row would have caused, which a later call shows: a removal is unobservable
  exactly when the row is not a pending one whose attempts are used up (`TtlRemoval.RemovalUnobservableExactly`);
  `TtlRemoval.SomeRemovalIsObserved` is a run where it shows.

## Model

| member | source | states |
|---|---|---|
| `ProtocolTheorems.SessionLimit` | internal/chatmgmt/app/auth_verify_otp.go:245-305 | in every state of every benign interleaved run, whole refreshes included, a user has at most five sessions whose stored expiry is ahead, and at most one per device |
| `ProtocolTheorems.RefreshKeepsLimitExactly` | internal/chatmgmt/app/auth_refresh.go:55-66 | a refresh the code accepts keeps the limit iff the session is strictly before its expiry or its user is below the limit, and likewise for devices |
| `WitnessRuns.RefreshAtExpiryExceedsLimit` | internal/chatmgmt/app/auth_refresh.go:55-66 | for every phone there is a run of the service, limits included, whose last call is a refresh at the very expiry of its session: benign and within five sessions up to that call, six after it |
| `PhoneLimit.PhoneSessionLimit` | internal/chatmgmt/adapter/dynamo_users.go:106-152 | the two rows that carry one phone have at most ten unexpired sessions together, since the lookup may return either |
| `PhoneLimit.LoginKeepsPhoneLimitExactly` | internal/chatmgmt/app/auth_verify_otp.go:238-305 | from any state that satisfies the invariants, a login filed under either row leaves the phone within five sessions iff min(k, 4) for the k active ones of that row on other devices, plus all active ones of the other row, is below five |
| `PhoneLimit.PhoneSessionLimitWithoutSentinels` | internal/chatmgmt/adapter/dynamo_users.go:106-152 | if the index never answers with a sentinel, a phone has at most five unexpired sessions in every state of every benign run |
| `WitnessRuns.PhoneLimitIsAttained` | internal/chatmgmt/adapter/dynamo_users.go:134-151 | for every phone there is a run of the service, limits included, whose tables are those of a benign run and hold ten unexpired sessions of the phone |
| `ProtocolTheorems.OptimisticLock` | internal/chatmgmt/adapter/dynamo_tx.go:123-145 | between a request's read of the OTP row and its successful commit, no step of any interleaving adds a session for that phone |
| `ProtocolTheorems.NoCommitSinceRead` | internal/chatmgmt/adapter/dynamo_tx.go:123-145 | at a successful commit the history holds no commit on that phone since the request read the row |
| `ProtocolLimit.PutKeepsLocksExactly` | internal/chatmgmt/adapter/dynamo_tx.go:123-145 | if every reader of an issued row has its lock, an OTP put that succeeds keeps all these locks iff no session was created for the phone since the same pair was issued before |
| `ProtocolLimit.RunKeepsAllLocked` | internal/chatmgmt/adapter/dynamo_tx.go:123-145 | in every state of every benign run every reader of an issued row has its lock |
| `ProtocolLimit.RunPutKeepsLocksExactly` | internal/chatmgmt/adapter/dynamo_otp.go:113-129 | so after any benign run the equivalence holds of the next OTP put |
| `LockWitness.RepeatedPairLosesLock` | internal/chatmgmt/adapter/dynamo_tx.go:123-145 | for every phone there is a run in which a request reads the OTP row, another session is created for the phone, the same pair is issued again, and the request still commits |
| `ProtocolTheorems.GainIsCommit` | internal/chatmgmt/adapter/dynamo_tx.go:55-120 | a session of a phone appears only in a step that consumes that phone's OTP row |
| `ProtocolTheorems.OtpSpentOnce` | internal/chatmgmt/adapter/dynamo_tx.go:123-145 | in every benign run no issued OTP is consumed by two commits, and a pending one by none |
| `ProtocolTheorems.OtpConservation` | internal/chatmgmt/adapter/dynamo_otp.go:96-140 | in every run and for every phone hash: issued = consumed + replaced while pending + removed while pending + pending now; so sessions never outnumber OTPs |
| `ProtocolTheorems.PhoneUniqueness` | internal/chatmgmt/adapter/dynamo_tx.go:148-181 | in every run, also with a lagging index: one user per phone, owner of its sentinel; reported as new at most once; every session's user is a row |
| `ProtocolTheorems.SessionOrigin` | internal/chatmgmt/app/auth_verify_otp.go:121-162 | every stored session goes back to a caller who presented exactly the code that had been issued to the phone of the session's user |
| `ProtocolTheorems.OtpDeadGap` | internal/chatmgmt/app/auth_verify_otp.go:144-151 | at one instant a pending OTP is never both verifiable and replaceable, and is neither iff strictly inside the second after its expiry |
| `ProtocolTheorems.ReplacedOtpIsExpired` | internal/chatmgmt/adapter/dynamo_otp.go:113-129 | in every run, an OTP that is overwritten while pending is past its parsed expiry at that moment |
| `ProtocolHistory.RunKeepsState` | internal/chatmgmt/app/auth_verify_otp.go:22-83 | every reachable state of every run satisfies the row, user, session, history and balance invariants, and requests in flight hold what they read |
| `ProtocolLimit.RunKeepsLimit` | internal/chatmgmt/app/auth_verify_otp.go:238-259 | every reachable state of a benign run: limit, distinct devices, and each request's lock and list of sessions still cover the user's active sessions |
| `ProtocolLimit.ListingCovers` | internal/chatmgmt/adapter/dynamo_sessions.go:164-202 | a listing by time text, split for eviction, covers every active session of the user, with at most four kept and none of these on the device |
| `ProtocolLimit.AddKeepsLimit` | internal/chatmgmt/adapter/dynamo_tx.go:184-204 | adding a session for a user whose active ones are among four, on other devices, keeps the limit and distinct devices |
| `ProtocolOrder.EarlierCommitIsNotYounger` | internal/chatmgmt/app/auth_verify_otp.go:286-303 | in every benign run, of two stored sessions of one phone the one committed earlier does not carry the later creation time |
| `ProtocolOrder.EvictionFollowsHistory` | internal/chatmgmt/app/auth_verify_otp.go:286-303 | so a login evicts no session on another device that was committed after one it keeps, unless both carry the same creation time |
| `Biographies.SessionBiography` | internal/chatmgmt/app/auth_verify_otp.go:308-340 | over any serial run every stored session was opened by a verification, for the phone of its user, on its device, at its creation time and under a token drawn there; it has been in the table since, and its expiry is thirty days after the login or the last effective refresh |
| `Biographies.RefreshIsFromOpeningDevice` | internal/chatmgmt/app/auth_refresh.go:48-53 | over any serial run a refresh that has any effect comes from the device of the verification that opened the session |
| `Biographies.RefreshNeedsDevice` | internal/chatmgmt/app/auth_refresh.go:48-53 | a refresh from any other device than the session's has no effect |
| `Biographies.LoginEvictsOldest` | internal/chatmgmt/app/auth_verify_otp.go:278-305 | over any serial run a login that goes through evicts, of the sessions on other devices, none that was opened in a later second than one it leaves |
| `Biographies.OtpBiography` | internal/chatmgmt/app/auth_request_otp.go:86-100 | every stored OTP goes back to the request that stored it: its code, its phone, its creation time, and an expiry 300 s later |
| `Biographies.UserBiography` | internal/chatmgmt/adapter/dynamo_tx.go:148-181 | every user and every sentinel goes back to the verification that registered the phone, with its identifier and its time |
| `SerialCalls.SerialRunIsProtocolRun` | internal/chatmgmt/app/auth_verify_otp.go:22-83 | every serial run of requests, verifications, refreshes, logouts and TTL removals, successful or failing, is a run of the protocol with the same tables at the end; benign if no two storing requests repeat a pair of one phone and no effective refresh comes at the very expiry |
| `SerialCalls.VerificationIsHosted` | internal/chatmgmt/app/auth_verify_otp.go:121-259 | whatever one whole verification does to the tables, removals before a failure included, a reachable state of the protocol has |
| `SerialCalls.RequestIsHosted` | internal/chatmgmt/app/auth_request_otp.go:79-102 | so does every whole OTP request |
| `SerialCalls.RefreshIsHosted` | internal/chatmgmt/app/auth_refresh.go:68-104 | so does every whole refresh: rotation is the refresh step, reuse a deletion |
| `SerialCalls.RemovalIsHosted` | internal/chatmgmt/app/auth_logout.go:31-36 | so does every logout, and every TTL removal |
| `SerialCalls.SerialSessionLimit` | internal/chatmgmt/app/auth_verify_otp.go:238-305 | after any such strict serial run of whole calls a user has at most five unexpired sessions |
| `SerialChain.SerialRunIsChainRun` | internal/chatmgmt/app/auth_refresh.go:68-131 | any serial run of whole calls with fresh draws is a run of the refresh chain in which every call has its place: the sessions agree there, and an effective refresh is the call of the chain at that place |
| `SerialChain.ServiceAcceptsOnce` | internal/chatmgmt/app/auth_refresh.go:68-131 | over any serial run of whole calls of the service no refresh token is accepted twice |
| `SerialChain.ServiceClosesForGood` | internal/chatmgmt/app/auth_refresh.go:35-46 | over any serial run of whole calls a session that is gone never comes back |
| `ServiceRuns.ServiceRunIsSerialRun` | internal/chatmgmt/app/auth_verify_otp.go:22-83 | the tables of a service run, limits and lockouts included, are those of a serial run |
| `ServiceRuns.RunFollows` | internal/chatmgmt/app/auth_verify_otp.go:86-162 | in every service run the counter, lockout and OTP row of a phone are what the checks make of the calls that concern it, whatever Redis answers and whoever else calls |
| `ServiceRuns.ServiceGuessBound` | internal/chatmgmt/app/auth_verify_otp.go:86-162 | in every service run, while the stored OTP of a phone is not renewed, at most ten candidates are compared with it, at most five of them wrong |
| `ServiceLimits.CountedExactly` | internal/chatmgmt/adapter/redis_ratelimit.go:47-63 | which calls count: a request for its phone unless Redis refuses, and for its address if it passes the limit of the phone; a verification for its phone; and for no other phone or address |
| `ServiceLimits.RequestRefusedExactly` | internal/chatmgmt/app/auth_request_otp.go:38-77 | in every service run an OTP request is refused for its phone iff Redis answers and three counted requests of the phone lie in its window, for its address iff it gets past that, Redis answers and ten counted requests of the address lie in its window, and is unavailable iff Redis does not answer for the phone; refused requests change no table |
| `ServiceLimits.VerificationRefusedExactly` | internal/chatmgmt/app/auth_verify_otp.go:86-117 | in every service run a verification is over its limit iff Redis answers and five counted verifications of the phone lie in its window, and locked out iff it gets past that and a lockout lives |
| `ServiceLimits.LockedExactly` | internal/chatmgmt/app/auth_verify_otp.go:136-142 | a phone is locked exactly for 900 s after a verification that found its OTP exhausted and whose lockout Redis carried out |
| `ServiceLimits.ServiceRate` | internal/chatmgmt/adapter/redis_ratelimit.go:19-63 | over any service run and any interval of length L at most 3 * (L/900 s + 2) OTPs are stored for a phone and at most 5 * (L/900 s + 2) candidates compared |
| `Outcomes.CompletionSucceedsExactly` | internal/chatmgmt/app/auth_verify_otp.go:56-73 | with Redis answering and the OTP unchanged, what follows the checks fails iff an identifier it draws is in use, and then only removed sessions are missing |
| `Outcomes.LateRegistrationLogsIn` | internal/chatmgmt/app/auth_verify_otp.go:197-205 | a registration of a phone that turns out to be registered goes on as a login: with Redis answering it succeeds iff the OTP is still the one that was read and the identifier of the login is unused, and is never reported as new |
| `Outcomes.ResultNamesSession` | internal/chatmgmt/app/auth_verify_otp.go:221-234 | what a caller is told is what is stored: session, user, device and token of a result are in the tables, the OTP is consumed, and the user is new iff no row carried the phone |
| `Outcomes.RequestStoresExactly` | internal/chatmgmt/app/auth_request_otp.go:102-124 | a request that passes its limits stores an OTP iff there is none, a consumed one or one whose expiry second is over, and always answers with the expiry of the OTP that is stored then |
| `RefreshChain.TokenDecides` | internal/chatmgmt/app/auth_refresh.go:68-104 | in every serial run the generation is the number of tokens issued for the session; the last one rotates, the one before deletes the session, any other is rejected with no change |
| `RefreshChain.RefreshAnswers` | internal/chatmgmt/app/auth_refresh.go:35-104 | when each answer is given, by the session alone: no session, another device, expired, the current token, the previous one, any other |
| `RefreshChain.AcceptedAtMostOnce` | internal/chatmgmt/app/auth_refresh.go:68-131 | over any serial run no refresh token is accepted twice, on whatever session |
| `RefreshChain.ClosedStaysClosed` | internal/chatmgmt/app/auth_refresh.go:35-46 | once a session id is gone no later refresh on it ever succeeds |
| `RefreshChain.ReuseEndsSession` | internal/chatmgmt/app/auth_refresh.go:83-100 | after reuse is detected every later refresh on that session id fails as revoked |
| `VerifyCall.GuessBound` | internal/chatmgmt/app/auth_verify_otp.go:86-162 | with whole calls in any order and any answers of Redis, one stored OTP is compared with at most ten candidates, at most five of them wrong |
| `VerifyCall.PassesExactly` | internal/chatmgmt/app/auth_verify_otp.go:86-162 | a verification passes iff Redis answers both questions, the count is at most five, no lockout lives, and the OTP is pending, has attempts left, is not expired and has the candidate's digest |
| `VerifyCall.FailureAnswers` | internal/chatmgmt/app/auth_verify_otp.go:86-162 | which error a failed check gives |
| `VerifyCall.LockoutNeedsLaterWindow` | internal/chatmgmt/app/auth_verify_otp.go:136-142 | a lockout is set only by a call whose limiter window begins after the window of the first wrong guess on that OTP has ended |
| `RateLimit.IntervalBound` | internal/chatmgmt/adapter/redis_ratelimit.go:19-63 | for any trace of one key, at most limit * (L/W + 2) calls pass in any interval of length L |
| `RateLimit.FirstCallsPass` | internal/chatmgmt/adapter/redis_ratelimit.go:19-63 | inside one window, defined without counters, exactly the first `limit` calls pass |
| `RateLimit.RateLimiter.CheckAndIncrement` | internal/chatmgmt/adapter/redis_ratelimit.go:47-63 | counts the call in the live window or opens one and touches no other key; allowed iff Redis answers and the count is within the limit, so it fails closed |
| `RateLimit.RateLimiter.CheckLockout` | internal/chatmgmt/adapter/redis_ratelimit.go:69-85 | locked iff the key has not expired or Redis does not answer |
| `RateLimit.RateLimiter.SetLockout` | internal/chatmgmt/adapter/redis_ratelimit.go:89-105 | sets the key's expiry to now plus the ttl and nothing else, unless Redis refuses |
| `KeyCache.CacheAgreesWithSource` | internal/chatmgmt/adapter/aws_keystore.go:160-211 | after any serial run, if the key set has not changed for 300 s a call answers every id as a direct lookup would |
| `KeyCache.AddedKeyIsFound` | internal/chatmgmt/adapter/aws_keystore.go:188-211 | an id that has been in the source for more than 30 s is found, whatever the source held before |
| `KeyCache.AddedKeyIsCurrent` | internal/chatmgmt/adapter/aws_keystore.go:160-211 | and with the source's value, if the id had no other value during the last 300 s |
| `KeyCache.RemovedKeyIsRefused` | internal/chatmgmt/adapter/aws_keystore.go:160-186 | a key that has been out of the source for more than 300 s is refused |
| `KeyCache.FreshKeyNeedsNoSource` | internal/chatmgmt/adapter/aws_keystore.go:163-171 | if any load of the run is at most 300 s old and the source has held the key since, it is found whether or not the source answers |
| `KeyCache.AnswerByHistory` | internal/chatmgmt/adapter/aws_keystore.go:160-211 | every answer by the history of loads: the key as last loaded up to 300 s ago, else the key as of now; for an unknown id a reload unless one was at most 30 s ago; a failure iff the source is needed and does not answer |
| `KeyCache.FailureChangesNothing` | internal/chatmgmt/adapter/aws_keystore.go:215-244 | a call that fails to load leaves the cache and the cooldown as they were |
| `KeyCache.LoadBound` | internal/chatmgmt/adapter/aws_keystore.go:188-244 | over a run of length T successful reloads are at most T/300 s for expiry and T/30 s + 1 for unknown ids, failing loads interspersed or not |
| `KeyCache.KeyStore.PublicKey` | internal/chatmgmt/adapter/aws_keystore.go:160-211 | the method's new cache and answer are those of `Lookup`, the function the theorems above are about |
| `KeyCache.KeyStore.RefreshPublicKeys` | internal/chatmgmt/adapter/aws_keystore.go:215-227 | replaces the key set and its load time iff the load succeeds, and leaves the cooldown |
| `KeyCache.KeyStore.RefreshPublicKeysWithCooldown` | internal/chatmgmt/adapter/aws_keystore.go:231-244 | as above, and starts the cooldown |
| `AccessTokens.RevocationCoversExactly` | internal/chatmgmt/adapter/redis_revocation.go:20-63 | the fixed key lifetime covers every token revoked at any time after minting iff access tokens live at most 3600 s |
| `AccessTokens.RevokedTokenIsRefused` | internal/chatmgmt/adapter/redis_revocation.go:46-86 | with the configured lifetime and any sequence of revocations, a revoked token is at every later time under a live key or fails full validation |
| `AccessTokens.RevocationLasts` | internal/chatmgmt/adapter/redis_revocation.go:46-63 | later revocations never shorten an earlier one |
| `AccessTokens.RevokedExactly` | internal/chatmgmt/adapter/redis_revocation.go:20-86 | over any sequence of revocations an id counts as revoked exactly for 3600 s after each of its own |
| `AccessTokens.RevocationStore.Revoke` | internal/chatmgmt/adapter/redis_revocation.go:46-63 | sets the key to expire 3600 s from now and nothing else, unless Redis refuses; reports a missing answer |
| `AccessTokens.RevocationStore.IsRevoked` | internal/chatmgmt/adapter/redis_revocation.go:69-86 | revoked iff the key has not expired or Redis does not answer |
| `AccessTokens.IgnoreExpiryWaivesOnlyExpiry` | internal/auth/jwt.go:55-109 | a token passes with expiry ignored iff it carries an expiry and the same token with an expiry ahead passes full validation |
| `AccessTokens.MintedTokenValidity` | internal/auth/mint.go:51-87 | a minted token passes full validation until its expiry, cut to the second, and never after, and always identifies its session when expiry is ignored |
| `AccessTokens.ParseToken` | internal/auth/jwt.go:55-80 | a token is accepted iff it is RS256 under a known key with a good signature, names a session, issuer and audience match, it has begun, and its expiry is ahead or, when expiry is ignored, present; it yields its own subject, id and session |
| `Rfc3339.FormatOrder` | internal/chatmgmt/adapter/dynamo_sessions.go:172-174 | for all times in years 0000 to 9999, text order of the stored timestamps is time order |
| `Rfc3339.ParseFormat` | internal/chatmgmt/app/auth_verify_otp.go:144-148 | parsing a formatted instant gives it back truncated to the second |
| `Rfc3339.ParseIsExact` | internal/chatmgmt/app/auth_verify_otp.go:144-148 | text reads as a second iff that second is in range and the text is its format |
| `Rfc3339.FormatIsGregorian` | internal/chatmgmt/adapter/dynamo_sessions.go:172-174 | the written fields are those of the Gregorian calendar: they add up to the second by a closed form without a table of months, and the day lies before the first of the next month |
| `Rfc3339.FormatInjective` | internal/chatmgmt/adapter/dynamo_tx.go:125-141 | timestamps with equal text are the same second, so comparing the text of an expiry compares the expiry |
| `Records.Rfc3339TextOk` | internal/chatmgmt/adapter/dynamo_otp.go:113-115 | RFC 3339 text satisfies everything the protocol assumes about stored times |
| `Records.ExpiryStamp` | internal/chatmgmt/app/auth_verify_otp.go:182-196 | an expiry computed from the clock is stored as the text of its ttl, the given number of seconds later |
| `Records.RequestedCodeIsAccepted` | internal/auth/otp.go:36-49 | against the row a request writes, a candidate of any length for any valid phone passes iff it is the generated code and the phone is the same |
| `Records.PairRepeatsExactly` | internal/chatmgmt/app/auth_request_otp.go:86-100 | two OTPs of one phone have the same digest and expiry iff they have the same code and were requested in the same second |
| `Records.ValidPhoneIsNumber` | internal/domain/phone.go:9-27 | a phone is valid iff it is a plus sign and a number of seven to fifteen digits without a leading zero |
| `Otp.MacBindsTriple` | internal/auth/otp.go:36-42 | the unseparated concatenation never confuses two triples of code, phone hash and expiry, for codes of any length |
| `Otp.CandidateMatches` | internal/auth/otp.go:46-49 | a candidate matches a stored digest iff code, phone hash and expiry are all the same |
| `Otp.GenerateOtp` | internal/auth/otp.go:18-24 | the code has six characters and denotes the number drawn |
| `Tables.PhoneHasOneUser` | internal/chatmgmt/adapter/dynamo_tx.go:167-181 | in a consistent users table no phone has two users |
| `Tables.RegistrationKeepsUsers` | internal/chatmgmt/adapter/dynamo_tx.go:55-85 | a registration keeps the users table consistent and every row that was there |
| `Stores.ClassifyTxError` | internal/chatmgmt/adapter/dynamo_tx.go:209-227 | any failed condition, the OTP's included, becomes "already exists", and only that |
| `Stores.Transactor.VerifyOtpAndCreateUser` | internal/chatmgmt/adapter/dynamo_tx.go:55-85 | all four items are written or none; success iff every condition held |
| `Stores.Transactor.VerifyOtpAndCreateSession` | internal/chatmgmt/adapter/dynamo_tx.go:94-120 | both items are written or none; success iff both conditions held |
| `Stores.OtpStore.CreateOtp` | internal/chatmgmt/adapter/dynamo_otp.go:96-140 | writes iff there is no row, a consumed one, or one whose expiry text is before now; otherwise "already exists" and no change |
| `Stores.OtpStore.GetOtp` | internal/chatmgmt/adapter/dynamo_otp.go:144-179 | the row, or "not found" |
| `Stores.OtpStore.IncrementAttempts` | internal/chatmgmt/adapter/dynamo_otp.go:183-210 | one more attempt on the row and on no other; nothing without a row |
| `Stores.UserStore.FindByPhone` | internal/chatmgmt/adapter/dynamo_users.go:106-152 | some key whose row carries the phone, or "not found" iff there is none |
| `Stores.SessionStore.ListByUser` | internal/chatmgmt/adapter/dynamo_sessions.go:164-202 | exactly the user's sessions whose expiry text is after now, each once |
| `Stores.SessionStore.GetById` | internal/chatmgmt/adapter/dynamo_sessions.go:131-159 | the row, or "not found" |
| `Stores.SessionStore.Update` | internal/chatmgmt/adapter/dynamo_sessions.go:206-240 | changes the five rotated attributes and no others; without a row it leaves one with no user and no device |
| `Stores.SessionStore.Delete` | internal/chatmgmt/adapter/dynamo_sessions.go:243-264 | the table without that row |
| `Eviction.SortByCreation` | internal/chatmgmt/app/auth_verify_otp.go:290-292 | the same sessions, oldest first by creation text |
| `Eviction.CutIsSplit` | internal/chatmgmt/app/auth_verify_otp.go:286-294 | cutting the sorted list after its excess keeps min(k, 4), loses none, and evicts none created after a kept one |
| `Eviction.SplitCovers` | internal/chatmgmt/app/auth_verify_otp.go:262-305 | every listed session is removed or kept, and a kept one is on another device |
| `Outcomes.LoginKeepsYoungest` | internal/chatmgmt/app/auth_verify_otp.go:238-305 | from any table, a login removes only listable sessions of its user, keeps exactly min(k, 4) of the k on other devices, none older than a removed one, and leaves these and the new one |
| `AuthService.Service.EvictConflictingSessions` | internal/chatmgmt/app/auth_verify_otp.go:262-275 | deletes exactly the listed sessions on the device up to the first revocation Redis does not answer, with a revocation key under each session id |
| `AuthService.Service.EnforceSessionLimit` | internal/chatmgmt/app/auth_verify_otp.go:278-305 | the same for the evicted part of a split of the sessions on other devices |
| `AuthService.Service.CheckVerifyRateLimits` | internal/chatmgmt/app/auth_verify_otp.go:86-117 | counts the call; passes iff Redis answers both questions, the window is within its limit and the phone is not locked; otherwise rate-limited or unavailable |
| `AuthService.Service.ValidateOtpRecord` | internal/chatmgmt/app/auth_verify_otp.go:121-162 | verdict of status, attempts, expiry and digest in that order; a wrong candidate costs one attempt, an exhausted row sets the lockout if Redis accepts it |
| `AuthService.Service.MakeRoom` | internal/chatmgmt/app/auth_verify_otp.go:245-255 | deletes what a login has to delete, in order, up to the first revocation Redis does not answer |
| `AuthService.Service.CreateLoginSession` | internal/chatmgmt/app/auth_verify_otp.go:308-361 | OTP consumed and session written together, or nothing and "already exists" |
| `AuthService.Service.VerifyOtpExistingUser` | internal/chatmgmt/app/auth_verify_otp.go:238-259 | removes as a login does, then commits iff the OTP is still the pending one that was read and the identifier is unused; in every failure the OTP is intact and the removals stay |
| `AuthService.Service.VerifyOtpNewUser` | internal/chatmgmt/app/auth_verify_otp.go:165-235 | user, sentinel and session appear and the OTP is consumed; if the transaction fails, the phone is looked up again and the call goes on as a login or ends as not found |
| `AuthService.Service.CompleteVerification` | internal/chatmgmt/app/auth_verify_otp.go:56-73 | registration iff no row carries the phone, login otherwise, with the whole effect on the tables, also for a record that no longer matches the stored row |
| `AuthService.Service.VerifyOtp` | internal/chatmgmt/app/auth_verify_otp.go:22-83 | the error and the whole new state for each verdict and each answer of Redis |
| `AuthService.Service.RequestOtp` | internal/chatmgmt/app/auth_request_otp.go:22-149 | the order of the checks, the counters, fail-closed for the phone and fail-open for the address, and either a new row with its expiry or the stored row's expiry and no change |
| `AuthService.Service.RotateRefreshToken` | internal/chatmgmt/app/auth_refresh.go:107-131 | the row with the new hash, the old one as previous, the next generation and a new expiry, and no other row |
| `AuthService.Service.RefreshTokens` | internal/chatmgmt/app/auth_refresh.go:20-145 | succeeds iff the token is valid apart from expiry, names a usable session on the device, and the refresh token is its current one; another device gets its own error and changes nothing; otherwise result, sessions and revocations as the decision prescribes, whether or not the revocation is answered |
| `AuthService.Service.Logout` | internal/chatmgmt/app/auth_logout.go:16-51 | deletes the token's session and revokes the token's id iff the token passes full validation; an unanswered revocation is an error after the deletion |
| `TtlRemoval.RunRowsOk` | internal/chatmgmt/app/auth_request_otp.go:93-100 | in every run the ttl of every OTP and session row is its expiry text read back |
| `TtlRemoval.RequestUnaffected` | internal/chatmgmt/adapter/dynamo_otp.go:113-129 | removing any rows past their ttl leaves unchanged whether the next request stores an OTP |
| `TtlRemoval.VerifyUnaffected` | internal/chatmgmt/app/auth_verify_otp.go:121-162 | ... and whether the next verification passes its checks, and its error unless an exhausted row was removed |
| `TtlRemoval.LoginUnaffected` | internal/chatmgmt/app/auth_verify_otp.go:238-259 | ... and which sessions a login removes, in which order |
| `TtlRemoval.VerificationUnaffected` | internal/chatmgmt/app/auth_verify_otp.go:22-83 | ... and so, for identifiers not in use, which successes a whole verification can have, and which failures unless an exhausted row was removed |
| `TtlRemoval.RefreshUnaffected` | internal/chatmgmt/app/auth_refresh.go:35-81 | ... and whether the next refresh succeeds |
| `TtlRemoval.RemovalUnobservableExactly` | internal/chatmgmt/app/auth_verify_otp.go:121-162 | after any serial run, removing a row past its ttl leaves every later verification, after whatever calls, with the same success iff the row is not a pending one with its attempts used up |
| `TtlRemoval.RemovalFlipsVerdict` | internal/chatmgmt/app/auth_verify_otp.go:131-142 | once window and lockout have run out, a verification, a request and the right code are refused with the exhausted row in place and accepted with it removed |
| `TtlRemoval.SomeRemovalIsObserved` | internal/chatmgmt/app/auth_verify_otp.go:136-142 | for every phone a serial run leads to a row whose removal can be observed |
| `TtlRemoval.RemovalsUnobservable` | internal/chatmgmt/app/auth_verify_otp.go:121-162 | a run with any number of removals that spare exhausted rows cannot be told from the run without them by any later verification |
| `TtlRemoval.SparesExhaustedExactly` | internal/chatmgmt/app/auth_verify_otp.go:121-162 | that condition on a run is exact: it holds iff none of the removals can be observed |
| `TtlRemoval.RemovalKeepsLockoutExactly` | internal/chatmgmt/app/auth_verify_otp.go:136-142 | the next verification leaves the same lockout after a removal iff the row was consumed or had attempts left, or the limit, a lockout or Redis stops the call before the row, or Redis refuses the lockout |

## Left out

- Refreshes that interleave their own read and update, and concurrent `PublicKey` callers: the code does not synchronise them; refresh is a single step in the protocol.
- Failures of the connection to DynamoDB: in the protocol a request may stop at any step, which covers them; the objects in `Stores` do not fail. Failures of Redis are modelled.
- Limits and lockouts in the protocol: its requests are never refused by the limiter, so the theorems about all its runs hold with any limits; the long runs that are shown to exist are runs of the service, with the limits, and `LockWitness.RepeatedPairLosesLock` interleaves two OTP requests and two verifications, which every limit allows.
- Several clock readings within one call on the objects: a call of `AuthService` reads the clock once; in the protocol every reading is a step of its own.
- Revocation keys in the protocol: the steps that set them change no table; `AuthService` has them.
- The re-read of the stored row when an OTP request finds an active OTP: it changes nothing, so the protocol ends the request there; `AuthService.Service.RequestOtp` has it.
- A lagging session index: the session limit needs an exact one.
- Rfc3339.Parse: reads the UTC form without a fraction only, because every stored time is written in that form; offsets and fractions, which the library also accepts, are not read.
- VerifyCall.GuessBound: and `ServiceRuns.ServiceGuessBound` are about whole calls; interleaved verifications may read the attempt count before another one's increment.
- AccessTokens.ParseToken: covers the checks the validator is configured with; token text, header decoding and signatures are abstract.
- Cryptography, random generation and PEM parsing: injective constructors and values drawn by the environment instead.
- The signing key, SMS delivery and its wait group, marshalling, spans, metrics and logging: no property of their own.
- Display names and OTP ciphertext, which the code always leaves empty.
- Message sequencing, fanout and the gateway: the packages hold only documentation.
- Error mapping, identifiers, configuration and protocol frames: tables and validators that would only add easy members.
