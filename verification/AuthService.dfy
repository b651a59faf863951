/** The four auth flows as serial calls on objects. A call reads the clock once, as `now`; identifiers and
    tokens drawn at random are parameters. */
module AuthService {
  import opened Domain
  import opened Rfc3339
  import opened Otp
  import opened Tables
  import opened Records
  import opened Eviction
  import opened RateLimit
  import opened AccessTokens
  import opened Stores
  import opened Outcomes
  import VerifyCall
  import RefreshChain

  class Service {
    const env: Env
    const otp: OtpStore
    const users: UserStore
    const sessions: SessionStore
    const tx: Transactor
    const limiter: RateLimiter
    const revocations: RevocationStore

    constructor (env: Env, otp: OtpStore, users: UserStore, sessions: SessionStore, limiter: RateLimiter,
                 revocations: RevocationStore)
      requires UsersOk(users.rows) && KeyedById(sessions.rows)
      ensures Valid() && this.env == env && this.otp == otp && this.users == users && this.sessions == sessions
      ensures this.limiter == limiter && this.revocations == revocations
    {
      this.env, this.otp, this.users, this.sessions := env, otp, users, sessions;
      this.limiter, this.revocations := limiter, revocations;
      tx := new Transactor(otp, users, sessions);
    }

    ghost predicate Valid()
      reads users, sessions
    {
      && tx.otp == otp && tx.users == users && tx.sessions == sessions
      && UsersOk(users.rows) && KeyedById(sessions.rows)
    }

    function View(): Sys
      reads otp, users, sessions, limiter
    {
      Sys(Db(otp.rows, users.rows, sessions.rows), limiter.counters, limiter.locks)
    }

    // -------------------------------------------------------------- RequestOTP

    /** The limit per phone fails closed, the one per address fails open. The expiry returned is that of the stored
        OTP, be it the new one or one that could not be replaced. */
    method RequestOtp(phone: string, ip: string, n: nat, replies: RequestReplies, now: int) returns (r: Result<int>)
      requires Valid() && n < Pow10(CODE_WIDTH)
      modifies limiter, otp
      ensures Valid()
      ensures RequestOutcome(env, old(View()), View(), phone, ip, n, replies, now, r)
    {
      if !ValidPhone(phone) {
        return Err(ErrInvalidPhoneNumber);
      }
      var hash := env.hash(phone);
      KeysDiffer(hash, hash, ip);
      var allowed, failed := limiter.CheckAndIncrement(RequestKey(hash), OTP_REQUEST_LIMIT_PER_PHONE,
                                                       VerifyCall.WINDOW, now, replies.phone);
      if failed {
        return Err(ErrUnavailable);
      }
      if !allowed {
        return Err(ErrPhoneRateLimited);
      }
      var ipAllowed, ipFailed := limiter.CheckAndIncrement(IpKey(ip), OTP_REQUEST_LIMIT_PER_IP,
                                                           VerifyCall.WINDOW, now, replies.ip);
      if !ipFailed && !ipAllowed {
        return Err(ErrIpRateLimited);
      }
      var row := NewOtp(env, phone, GenerateOtp(n), now);
      var created := otp.CreateOtp(hash, row, Stamp(env, now));
      if created.Err? {
        var existing := otp.GetOtp(hash);
        if existing.Err? {
          return Err(ErrNotFound);
        }
        match env.read(existing.value.expiresAt) {
          case None => return Err(ErrParse);
          case Some(e) => return Ok(e * NANOS);
        }
      }
      r := Ok(now + OTP_VALIDITY * NANOS);
    }

    // -------------------------------------------------------------- VerifyOTP

    method CheckVerifyRateLimits(hash: string, replies: VerifyCall.GateReplies, now: int) returns (r: Result<()>)
      modifies limiter
      ensures var acc := AccountOf(old(View()), hash);
              && r == (match VerifyCall.Gate(acc, replies, now)
                       case None => Ok(())
                       case Some(v) => Err(VerifyCall.ErrorOf(v)))
              && (r.Ok? ==> replies.limit.Delivered? && replies.lock.Delivered?)
              && limiter.counters == if replies.limit.Refused? then old(limiter.counters)
                                     else old(limiter.counters)[VerifyKey(hash) :=
                                            Incr(acc.counter, now, VerifyCall.WINDOW)]
      ensures limiter.locks == old(limiter.locks)
    {
      var allowed, failed := limiter.CheckAndIncrement(VerifyKey(hash), MAX_OTP_VERIFY_ATTEMPTS, VerifyCall.WINDOW,
                                                       now, replies.limit);
      if failed {
        return Err(ErrUnavailable);
      }
      if !allowed {
        return Err(ErrRateLimited);
      }
      var locked, lockFailed := limiter.CheckLockout(LockKey(hash), now, replies.lock);
      if lockFailed {
        return Err(ErrUnavailable);
      }
      if locked {
        return Err(ErrRateLimited);
      }
      r := Ok(());
    }

    method ValidateOtpRecord(hash: string, candidate: string, setLock: Reply, now: int) returns (r: Result<OtpRow>)
      modifies limiter, otp
      ensures var v := VerifyCall.Examine(env, hash, Get(old(otp.rows), hash), candidate, now);
              && (v.Right? ==> hash in old(otp.rows) && r == Ok(old(otp.rows)[hash]))
              && (!v.Right? ==> r == Err(VerifyCall.ErrorOf(v)))
              && otp.rows == (if v.Wrong? then BumpAttempts(old(otp.rows), hash) else old(otp.rows))
              && limiter.counters == old(limiter.counters)
              && limiter.locks == if v.Exhausted? && !setLock.Refused?
                                  then old(limiter.locks)[LockKey(hash) := now + VerifyCall.LOCKOUT]
                                  else old(limiter.locks)
    {
      var got := otp.GetOtp(hash);
      if got.Err? {
        return Err(ErrInvalidOtp);
      }
      var record := got.value;
      if record.status == Verified {
        return Err(ErrInvalidOtp);
      }
      if record.attempts >= MAX_OTP_VERIFY_ATTEMPTS {
        var failed := limiter.SetLockout(LockKey(hash), VerifyCall.LOCKOUT, now, setLock);
        return Err(ErrRateLimited);
      }
      match env.read(record.expiresAt) {
        case None => return Err(ErrParse);
        case Some(e) =>
          if now > e * NANOS {
            return Err(ErrInvalidOtp);
          }
      }
      if !VerifyOtpMac(env.pepper, candidate, hash, record.expiresAt, record.mac) {
        otp.IncrementAttempts(hash);
        return Err(ErrInvalidOtp);
      }
      r := Ok(record);
    }

    /** Deletes a session, and sets a revocation key under the session id. */
    method EvictSession(id: string, reply: Reply, now: int) returns (ok: bool)
      modifies sessions, revocations
      ensures sessions.rows == old(sessions.rows) - {id}
      ensures revocations.keys == if reply.Refused? then old(revocations.keys)
                                  else old(revocations.keys)[id := now + REVOKED_TTL * NANOS]
      ensures ok <==> reply.Delivered?
    {
      sessions.Delete(id);
      var failed := revocations.Revoke(id, now, reply);
      ok := !failed;
    }

    /** Evicts the listed sessions that are bound to `device`, up to the first revocation that is not answered. */
    method EvictConflictingSessions(listed: seq<Session>, device: string, revoke: Replies, now: int) returns (ok: bool)
      modifies sessions, revocations
      ensures var removed := IdSet(Handled(OnDevice(listed, device), revoke));
              && sessions.rows == old(sessions.rows) - removed
              && revocations.keys == RevokeIds(old(revocations.keys), Carried(removed, revoke), now)
      ensures ok <==> AllDelivered(OnDevice(listed, device), revoke)
    {
      ghost var done: seq<Session> := [];
      RemoveNone(sessions.rows, revocations.keys, revoke, now);
      for i := 0 to |listed|
        invariant done == OnDevice(listed[..i], device) && AllDelivered(done, revoke)
        invariant sessions.rows == old(sessions.rows) - IdSet(done)
        invariant revocations.keys == RevokeIds(old(revocations.keys), Carried(IdSet(done), revoke), now)
      {
        assert listed[..i + 1][..i] == listed[..i];
        if listed[i].deviceId == device {
          ok := EvictSession(listed[i].id, ReplyTo(revoke, listed[i].id), now);
          RemoveOneMore(old(sessions.rows), old(revocations.keys), done, listed[i], revoke, now);
          if !ok {
            OnDeviceSplits(listed, i + 1, device);
            HandledStops(done, listed[i], OnDevice(listed[i + 1..], device), revoke);
            return false;
          }
          done := done + [listed[i]];
        }
      }
      assert listed[..|listed|] == listed;
      HandledAll(done, revoke);
      ok := true;
    }

    /** The sessions bound to other devices. */
    method OtherSessions(listed: seq<Session>, device: string) returns (others: seq<Session>)
      ensures others == OffDevice(listed, device)
    {
      others := [];
      for i := 0 to |listed|
        invariant others == OffDevice(listed[..i], device)
      {
        assert listed[..i + 1][..i] == listed[..i];
        if listed[i].deviceId != device {
          others := others + [listed[i]];
        }
      }
      assert listed[..|listed|] == listed;
    }

    method EvictAll(oldest: seq<Session>, revoke: Replies, now: int) returns (ok: bool)
      modifies sessions, revocations
      ensures var removed := IdSet(Handled(oldest, revoke));
              && sessions.rows == old(sessions.rows) - removed
              && revocations.keys == RevokeIds(old(revocations.keys), Carried(removed, revoke), now)
      ensures ok <==> AllDelivered(oldest, revoke)
    {
      RemoveNone(sessions.rows, revocations.keys, revoke, now);
      for i := 0 to |oldest|
        invariant AllDelivered(oldest[..i], revoke)
        invariant sessions.rows == old(sessions.rows) - IdSet(oldest[..i])
        invariant revocations.keys == RevokeIds(old(revocations.keys), Carried(IdSet(oldest[..i]), revoke), now)
      {
        ok := EvictSession(oldest[i].id, ReplyTo(revoke, oldest[i].id), now);
        RemoveOneMore(old(sessions.rows), old(revocations.keys), oldest[..i], oldest[i], revoke, now);
        assert oldest[..i + 1] == oldest[..i] + [oldest[i]];
        if !ok {
          assert oldest == oldest[..i] + [oldest[i]] + oldest[i + 1..];
          HandledStops(oldest[..i], oldest[i], oldest[i + 1..], revoke);
          return false;
        }
      }
      assert oldest[..|oldest|] == oldest;
      HandledAll(oldest, revoke);
      ok := true;
    }

    /** Evicts the oldest sessions on other devices until one below the limit remain. */
    method EnforceSessionLimit(listed: seq<Session>, device: string, revoke: Replies, now: int)
      returns (ok: bool, ghost evicted: seq<Session>, ghost kept: seq<Session>)
      modifies sessions, revocations
      ensures IsSplit(OffDevice(listed, device), evicted, kept)
      ensures var removed := IdSet(Handled(evicted, revoke));
              && sessions.rows == old(sessions.rows) - removed
              && revocations.keys == RevokeIds(old(revocations.keys), Carried(removed, revoke), now)
      ensures ok <==> AllDelivered(evicted, revoke)
    {
      var others := OtherSessions(listed, device);
      if |others| < MAX_SESSIONS_PER_USER {
        RemoveNone(sessions.rows, revocations.keys, revoke, now);
        return true, [], others;
      }
      var sorted := SortByCreation(others);
      var evictCount := |others| - MAX_SESSIONS_PER_USER + 1;
      CutIsSplit(others, sorted, evictCount);
      evicted, kept := sorted[..evictCount], sorted[evictCount..];
      ok := EvictAll(sorted[..evictCount], revoke, now);
    }

    /** Lists the sessions of `user` and evicts those on the device, then the oldest of the others, up to the first
        revocation that is not answered. */
    method MakeRoom(user: string, device: string, revoke: Replies, now: int)
      returns (ok: bool, ghost todo: seq<Session>)
      requires Valid()
      modifies sessions, revocations
      ensures LoginTodo(old(sessions.rows), user, device, Stamp(env, now), todo)
      ensures var removed := IdSet(Handled(todo, revoke));
              && sessions.rows == old(sessions.rows) - removed
              && revocations.keys == RevokeIds(old(revocations.keys), Carried(removed, revoke), now)
      ensures ok <==> AllDelivered(todo, revoke)
    {
      var listed := sessions.ListByUser(user, Stamp(env, now));
      ok := EvictConflictingSessions(listed, device, revoke, now);
      ghost var first, evicted, kept := OnDevice(listed, device), [], [];
      if !ok {
        evicted, kept := SplitExists(OffDevice(listed, device));
      } else {
        HandledAll(first, revoke);
        ok, evicted, kept := EnforceSessionLimit(listed, device, revoke, now);
        RemoveTwice(old(sessions.rows), old(revocations.keys), first, Handled(evicted, revoke), revoke, now);
      }
      todo := first + evicted;
      HandledSplits(first, evicted, revoke);
    }

    /** Commits a login. */
    method CreateLoginSession(hash: string, record: OtpRow, user: string, device: string, drawn: Drawn, now: int)
      returns (r: Result<VerifyResult>)
      requires Valid()
      modifies otp, users, sessions
      ensures Valid()
      ensures var session := NewSession(env, drawn.loginSessionId, user, device, drawn.loginToken, now);
              var login := Login(hash, record.expiresAt, record.mac, session);
              if MayLogin(old(tx.View()), login) then
                && tx.View() == ApplyLogin(old(tx.View()), login)
                && r == Ok(VerifyResult(user, drawn.loginSessionId, drawn.loginToken, false))
              else tx.View() == old(tx.View()) && r == Err(ErrAlreadyExists)
    {
      var session := NewSession(env, drawn.loginSessionId, user, device, drawn.loginToken, now);
      var committed := tx.VerifyOtpAndCreateSession(Login(hash, record.expiresAt, record.mac, session));
      if committed.Err? {
        return Err(committed.error);
      }
      r := Ok(VerifyResult(user, drawn.loginSessionId, drawn.loginToken, false));
    }

    /** A login: removes sessions first, then commits. If the commit fails, the removals stay. */
    method VerifyOtpExistingUser(hash: string, record: OtpRow, user: string, device: string, drawn: Drawn,
                                 revoke: Replies, now: int)
      returns (r: Result<VerifyResult>, ghost removed: set<string>)
      requires Valid()
      modifies otp, users, sessions, revocations
      ensures Valid()
      ensures LoginOutcome(env, old(tx.View()), tx.View(), hash, record, user, device, drawn, revoke, now, r, removed)
      ensures revocations.keys == RevokeIds(old(revocations.keys), Carried(removed, revoke), now)
    {
      var ok;
      ghost var todo;
      ok, todo := MakeRoom(user, device, revoke, now);
      removed := IdSet(Handled(todo, revoke));
      if !ok {
        return Err(ErrRedis), removed;
      }
      r := CreateLoginSession(hash, record, user, device, drawn, now);
    }

    /** A registration; when its transaction fails, because the phone was registered meanwhile or otherwise, the
        phone is looked up again and the call may go on as a login. */
    method VerifyOtpNewUser(phone: string, record: OtpRow, device: string, drawn: Drawn, revoke: Replies, now: int)
      returns (r: Result<VerifyResult>, ghost removed: set<string>)
      requires Valid() && IsUuid(drawn.userId)
      modifies otp, users, sessions, revocations
      ensures Valid()
      ensures RegistrationOutcome(env, old(tx.View()), tx.View(), phone, record, device, drawn, revoke, now, r, removed)
      ensures revocations.keys == RevokeIds(old(revocations.keys), Carried(removed, revoke), now)
    {
      removed := {};
      RemoveNone(sessions.rows, revocations.keys, revoke, now);
      var p := RegistrationOf(env, phone, record, device, drawn, now);
      if MayRegister(tx.View(), p) {
        RegistrationKeepsUsers(tx.View(), p);
      }
      var committed := tx.VerifyOtpAndCreateUser(p);
      if committed.Err? {
        var again := users.FindByPhone(phone);
        if again.Err? {
          return Err(again.error), removed;
        }
        r, removed := VerifyOtpExistingUser(env.hash(phone), record, again.value, device, drawn, revoke, now);
        return;
      }
      r := Ok(VerifyResult(drawn.userId, drawn.sessionId, drawn.token, true));
    }

    /** The rest of a verification whose OTP has passed every check: registration or login, by whether some
        row carries the phone. */
    method CompleteVerification(phone: string, record: OtpRow, device: string, drawn: Drawn, revoke: Replies, now: int)
      returns (r: Result<VerifyResult>, ghost removed: set<string>)
      requires Valid() && IsUuid(drawn.userId)
      modifies otp, users, sessions, revocations
      ensures Valid()
      ensures Completion(env, old(tx.View()), tx.View(), phone, record, device, drawn, revoke, now, r, removed)
      ensures revocations.keys == RevokeIds(old(revocations.keys), Carried(removed, revoke), now)
    {
      var found := users.FindByPhone(phone);
      if found.Err? {
        r, removed := VerifyOtpNewUser(phone, record, device, drawn, revoke, now);
      } else {
        r, removed := VerifyOtpExistingUser(env.hash(phone), record, found.value, device, drawn, revoke, now);
      }
    }

    method VerifyOtp(phone: string, candidate: string, device: string, drawn: Drawn, replies: VerifyReplies, now: int)
      returns (r: Result<VerifyResult>, ghost removed: set<string>)
      requires Valid() && IsUuid(drawn.userId)
      modifies otp, users, sessions, limiter, revocations
      ensures Valid()
      ensures VerifyOutcome(env, old(View()), View(), phone, candidate, device, drawn, replies, now, r, removed)
      ensures revocations.keys == RevokeIds(old(revocations.keys), Carried(removed, replies.revoke), now)
    {
      RemoveNone(sessions.rows, revocations.keys, replies.revoke, now);
      removed := {};
      if !ValidPhone(phone) {
        return Err(ErrInvalidPhoneNumber), removed;
      }
      if device == "" {
        return Err(ErrInvalidInput), removed;
      }
      var hash := env.hash(phone);
      var gate := CheckVerifyRateLimits(hash, replies.gate, now);
      if gate.Err? {
        return Err(gate.error), removed;
      }
      var validated := ValidateOtpRecord(hash, candidate, replies.gate.setLock, now);
      if validated.Err? {
        return Err(validated.error), removed;
      }
      r, removed := CompleteVerification(phone, validated.value, device, drawn, replies.revoke, now);
    }

    // -------------------------------------------------------------- RefreshTokens, Logout

    method RotateRefreshToken(id: string, session: Session, drawn: string, now: int)
      requires Valid() && id in sessions.rows && sessions.rows[id] == session
      modifies sessions
      ensures Valid() && sessions.rows == old(sessions.rows)[id := Rotated(env, session, drawn, now)]
    {
      var expiry := now + REFRESH_TOKEN_LIFETIME * NANOS;
      sessions.Update(id, Sha256(drawn), session.refreshHash, session.generation + 1, Stamp(env, expiry),
                      SecondsOf(expiry));
    }

    /** The session named by an access token that is valid apart from its expiry is rotated, deleted or left
        alone as the presented token decides; reuse also sets a revocation key under the token's id. */
    method RefreshTokens(v: Validator, kids: set<string>, access: Token, token: string, device: string, drawn: string,
                         reply: Reply, now: int) returns (r: Result<string>)
      requires Valid()
      modifies sessions, revocations
      ensures Valid()
      ensures Performs(env, old(View()), Refresh(if access.Token? then access.sid else "", device, token, drawn), now,
                       View())
      ensures var parsed := ParseToken(v, kids, access, now, true);
              && (r.Ok? <==> && parsed.Ok?
                             && RefreshChain.Usable(env, old(sessions.rows), parsed.value.sid, device, now)
                             && old(sessions.rows)[parsed.value.sid].refreshHash == Sha256(token))
              && (r.Ok? ==> && parsed.value.sid in sessions.rows
                            && sessions.rows[parsed.value.sid].refreshHash == Sha256(r.value))
              && (parsed.Ok? && parsed.value.sid in old(sessions.rows)
                  && old(sessions.rows)[parsed.value.sid].deviceId != device ==>
                    && r == Err(ErrDeviceMismatch)
                    && sessions.rows == old(sessions.rows) && revocations.keys == old(revocations.keys))
              && (parsed.Err? ==> r == Err(ErrUnauthorized) && sessions.rows == old(sessions.rows)
                                  && revocations.keys == old(revocations.keys))
              && (parsed.Ok? ==>
                    var id := parsed.value.sid;
                    var d := RefreshChain.Decide(env, old(sessions.rows), id, device, token, now);
                    && r == (if d.Rotate? then Ok(drawn) else Err(RefreshChain.DecisionError(d)))
                    && (d.Rotate? || d.Reuse? ==> id in old(sessions.rows))
                    && sessions.rows == RefreshChain.AfterRefresh(env, old(sessions.rows), id, d, drawn, now)
                    && revocations.keys == if d.Reuse? && !reply.Refused?
                                           then old(revocations.keys)[parsed.value.jti := now + REVOKED_TTL * NANOS]
                                           else old(revocations.keys))
    {
      var parsed := ParseToken(v, kids, access, now, true);
      if parsed.Err? {
        return Err(ErrUnauthorized);
      }
      var claims := parsed.value;
      RefreshIsEffect(env, tx.View(), claims.sid, device, token, drawn, now);
      RefreshChain.RefreshAnswers(env, sessions.rows, claims.sid, device, token, now);
      var got := sessions.GetById(claims.sid);
      if got.Err? {
        return Err(ErrSessionRevoked);
      }
      var session := got.value;
      if session.deviceId != device {
        return Err(ErrDeviceMismatch);
      }
      match env.read(session.expiresAt) {
        case None => return Err(ErrParse);
        case Some(e) =>
          if now > e * NANOS {
            return Err(ErrSessionExpired);
          }
      }
      if Sha256(token) == session.refreshHash {
        RotateRefreshToken(claims.sid, session, drawn, now);
        return Ok(drawn);
      }
      if session.prevHash != NoHash && Sha256(token) == session.prevHash {
        sessions.Delete(claims.sid);
        var failed := revocations.Revoke(claims.jti, now, reply);
        return Err(ErrRefreshTokenReuse);
      }
      r := Err(ErrInvalidRefreshToken);
    }

    method Logout(v: Validator, kids: set<string>, access: Token, reply: Reply, now: int) returns (r: Result<()>)
      requires Valid()
      modifies sessions, revocations
      ensures Valid()
      ensures Performs(env, old(View()), ServiceCall.Logout(if access.Token? then access.sid else ""), now, View())
      ensures var parsed := ParseToken(v, kids, access, now, false);
              if parsed.Ok? then
                && r == (if reply.Delivered? then Ok(()) else Err(ErrRedis))
                && sessions.rows == old(sessions.rows) - {parsed.value.sid}
                && revocations.keys == if reply.Refused? then old(revocations.keys)
                                       else old(revocations.keys)[parsed.value.jti := now + REVOKED_TTL * NANOS]
              else
                && r == Err(ErrUnauthorized) && sessions.rows == old(sessions.rows)
                && revocations.keys == old(revocations.keys)
    {
      var parsed := ParseToken(v, kids, access, now, false);
      if parsed.Err? {
        return Err(ErrUnauthorized);
      }
      sessions.Delete(parsed.value.sid);
      var failed := revocations.Revoke(parsed.value.jti, now, reply);
      if failed {
        return Err(ErrRedis);
      }
      r := Ok(());
    }
  }
}
