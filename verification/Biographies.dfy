/** Where the rows of the tables come from: over every serial run, each stored session, OTP and user goes back to the
    calls that wrote it, with their device, their phone and their times. So a refresh is bound to the device of the
    login, and the sessions that a login evicts are the ones that were opened first. */
module Biographies {
  import opened Domain
  import opened Rfc3339
  import opened Otp
  import opened Tables
  import opened Records
  import opened Eviction
  import opened Outcomes
  import opened SerialCalls
  import Stores

  // ---------------------------------------------------------------- one call and one session

  /** The session is the one that this verification opens. */
  ghost predicate OpenedBy(env: Env, call: ServiceCall, now: int, users: map<string, UserRow>, s: Session) {
    && call.Verify? && s.deviceId == call.device && s.createdAt == env.text(SecondsOf(now))
    && s.userId in users && users[s.userId].phone == call.phone
    && s.prevHash == NoHash && s.generation == 1
    && (|| (s.id == call.drawn.sessionId && s.refreshHash == Sha256(call.drawn.token))
        || (s.id == call.drawn.loginSessionId && s.refreshHash == Sha256(call.drawn.loginToken)))
  }

  /** The session lives for thirty days from this instant. */
  ghost predicate LivesFrom(env: Env, now: int, s: Session) {
    s.ttl == SecondsOf(now) + 30 * 86_400 && s.expiresAt == env.text(s.ttl)
  }

  /** The refresh presents the token that is current before, from the session's device, and hands out the next one. */
  ghost predicate RotatedBy(call: ServiceCall, before: Session, after: Session) {
    && call.Refresh? && call.id == before.id && call.device == before.deviceId
    && before.refreshHash == Sha256(call.token) && after.refreshHash == Sha256(call.next)
    && after.prevHash == before.refreshHash && after.generation == before.generation + 1
    && after.id == before.id && after.userId == before.userId && after.deviceId == before.deviceId
    && after.createdAt == before.createdAt
  }

  /** A new row of the table that is as it was, or the new session. */
  ghost predicate IsNewRow(env: Env, before: Db, call: ServiceCall, now: int, after: Db, id: string)
    requires id in after.sessions
  {
    || (id in before.sessions && after.sessions[id] == before.sessions[id])
    || (&& OpenedBy(env, call, now, after.users, after.sessions[id]) && LivesFrom(env, now, after.sessions[id])
        && after.sessions[id].id == id)
  }

  lemma LoginOpens(env: Env, before: Db, call: ServiceCall, now: int, after: Db, hash: string, record: OtpRow,
                   user: string, r: Result<VerifyResult>, removed: set<string>, id: string)
    requires call.Verify? && ClockOk(now) && user in before.users && before.users[user].phone == call.phone
    requires LoginOutcome(env, before, after, hash, record, user, call.device, call.drawn, call.replies.revoke, now, r,
                          removed)
    requires id in after.sessions
    ensures IsNewRow(env, before, call, now, after, id)
  {
    ExpiryStamp(env, now, REFRESH_TOKEN_LIFETIME);
  }

  lemma RegistrationOpens(env: Env, before: Db, call: ServiceCall, now: int, after: Db, record: OtpRow, id: string)
    requires call.Verify? && ClockOk(now) && IsUuid(call.drawn.userId)
    requires var p := RegistrationOf(env, call.phone, record, call.device, call.drawn, now);
             MayRegister(before, p) && after == ApplyRegistration(before, p)
    requires id in after.sessions
    ensures IsNewRow(env, before, call, now, after, id)
  {
    ExpiryStamp(env, now, REFRESH_TOKEN_LIFETIME);
    SentinelKeyIsNoUuid(call.phone);
  }

  lemma OpensSession(env: Env, before: Db, call: ServiceCall, now: int, after: Db, id: string)
    requires Effect(env, before, call, now, after) && call.Verify? && ClockOk(now) && IsUuid(call.drawn.userId)
    requires id in after.sessions
    ensures IsNewRow(env, before, call, now, after, id)
  {
    if after.sessions != before.sessions {
      var hash, row, revoke := env.hash(call.phone), before.otp[env.hash(call.phone)], call.replies.revoke;
      var r, removed :|
        Completion(env, before, after, call.phone, row, call.device, call.drawn, revoke, now, r, removed);
      if Unregistered(before.users, call.phone) {
        RegistrationOpens(env, before, call, now, after, row, id);
      } else {
        var user :| && user in before.users && before.users[user].phone == call.phone
                    && LoginOutcome(env, before, after, hash, row, user, call.device, call.drawn, revoke, now, r,
                                    removed);
        LoginOpens(env, before, call, now, after, hash, row, user, r, removed, id);
      }
    }
  }

  lemma RotatesSession(env: Env, before: Db, call: ServiceCall, now: int, after: Db)
    requires Effect(env, before, call, now, after) && call.Refresh? && after != before && ClockOk(now)
    requires call.id in before.sessions ==> before.sessions[call.id].id == call.id
    ensures call.id in before.sessions && before.sessions[call.id].deviceId == call.device
    ensures forall id | id in after.sessions && id != call.id ::
              id in before.sessions && after.sessions[id] == before.sessions[id]
    ensures call.id in after.sessions ==>
              && RotatedBy(call, before.sessions[call.id], after.sessions[call.id])
              && LivesFrom(env, now, after.sessions[call.id])
              && env.read(before.sessions[call.id].expiresAt).Some?
              && now <= env.read(before.sessions[call.id].expiresAt).value * NANOS
  {
    ExpiryStamp(env, now, REFRESH_TOKEN_LIFETIME);
  }

  /** A refresh that has any effect comes from the device that the session is bound to. */
  lemma RefreshNeedsDevice(env: Env, before: Db, call: ServiceCall, now: int, after: Db)
    requires Effect(env, before, call, now, after) && call.Refresh? && after != before
    ensures call.id in before.sessions && before.sessions[call.id].deviceId == call.device
  {
  }

  // ---------------------------------------------------------------- the biography of a session

  /** Call `i` opened the session. */
  ghost predicate IsOpening(env: Env, dbs: seq<Db>, calls: seq<Timed>, i: nat, s: Session)
    requires |dbs| == |calls| + 1
  {
    && i < |calls| && s.id in dbs[i + 1].sessions && dbs[i + 1].sessions[s.id].id == s.id
    && OpenedBy(env, calls[i].call, calls[i].now, dbs[i + 1].users, dbs[i + 1].sessions[s.id])
    && s.deviceId == calls[i].call.device && s.createdAt == env.text(SecondsOf(calls[i].now))
    && s.userId == dbs[i + 1].sessions[s.id].userId
  }

  /** Call `j`, a login or an effective refresh, is the last that extended the session. */
  ghost predicate IsExtension(env: Env, dbs: seq<Db>, calls: seq<Timed>, j: nat, s: Session)
    requires |dbs| == |calls| + 1
  {
    && j < |calls| && LivesFrom(env, calls[j].now, s)
    && (calls[j].call.Verify? || (calls[j].call.Refresh? && calls[j].call.id == s.id && dbs[j + 1] != dbs[j]))
  }

  /** Every stored session was opened by a verification, for its phone and device and at its creation time, has been in
      the table since, and lives for thirty days from the login or the last refresh. */
  lemma {:induction false} SessionBiography(env: Env, dbs: seq<Db>, calls: seq<Timed>, n: nat, id: string)
    returns (i: nat, j: nat)
    requires IsSerialRun(env, dbs, calls) && n <= |calls| && id in dbs[n].sessions
    ensures i <= j < n && dbs[n].sessions[id].id == id
    ensures IsOpening(env, dbs, calls, i, dbs[n].sessions[id]) && IsExtension(env, dbs, calls, j, dbs[n].sessions[id])
    ensures forall m | i < m <= n :: id in dbs[m].sessions
  {
    var k := n - 1;
    assert CallStep(env, dbs[k], calls[k], dbs[k + 1]);
    var call := calls[k].call;
    if call.Refresh? && dbs[n] != dbs[k] {
      if call.id in dbs[k].sessions {
        i, j := SessionBiography(env, dbs, calls, k, call.id);
      }
      RotatesSession(env, dbs[k], call, calls[k].now, dbs[n]);
      if id == call.id {
        j := k;
      } else {
        i, j := SessionBiography(env, dbs, calls, k, id);
      }
    } else if id in dbs[k].sessions && dbs[n].sessions[id] == dbs[k].sessions[id] {
      i, j := SessionBiography(env, dbs, calls, k, id);
    } else {
      OpensSession(env, dbs[k], call, calls[k].now, dbs[n], id);
      i, j := k, k;
    }
  }

  /** Over any serial run, a refresh that has any effect comes from the device that opened the session. */
  lemma RefreshIsFromOpeningDevice(env: Env, dbs: seq<Db>, calls: seq<Timed>, n: nat) returns (i: nat)
    requires IsSerialRun(env, dbs, calls) && n < |calls| && calls[n].call.Refresh? && dbs[n + 1] != dbs[n]
    ensures i < n && calls[i].call.Verify? && calls[i].call.device == calls[n].call.device
    ensures forall m | i < m <= n :: calls[n].call.id in dbs[m].sessions
    ensures calls[n].call.id in {calls[i].call.drawn.sessionId, calls[i].call.drawn.loginSessionId}
  {
    assert CallStep(env, dbs[n], calls[n], dbs[n + 1]);
    RefreshNeedsDevice(env, dbs[n], calls[n].call, calls[n].now, dbs[n + 1]);
    var j;
    i, j := SessionBiography(env, dbs, calls, n, calls[n].call.id);
  }

  // ---------------------------------------------------------------- what a login evicts

  /** What a login removed that has gone through. */
  lemma OutcomeRemoves(env: Env, before: Db, after: Db, hash: string, record: OtpRow, user: string, device: string,
                       drawn: Drawn, revoke: Replies, now: int, r: Result<VerifyResult>, removed: set<string>)
    requires LoginOutcome(env, before, after, hash, record, user, device, drawn, revoke, now, r, removed)
    requires drawn.loginSessionId in after.sessions && drawn.loginSessionId !in before.sessions
    ensures LoginRemoves(before.sessions, user, device, Stamp(env, now), removed)
    ensures after.sessions.Keys == before.sessions.Keys - removed + {drawn.loginSessionId}
  {
    var todo :| && LoginTodo(before.sessions, user, device, Stamp(env, now), todo)
                && removed == IdSet(Handled(todo, revoke)) && (r.Ok? ==> AllDelivered(todo, revoke));
    assert r.Ok?;
    HandledAll(todo, revoke);
  }

  lemma LoginWentThrough(env: Env, before: Db, call: ServiceCall, now: int, after: Db)
    returns (user: string, removed: set<string>)
    requires Effect(env, before, call, now, after) && call.Verify? && !Unregistered(before.users, call.phone)
    requires call.drawn.loginSessionId in after.sessions && call.drawn.loginSessionId !in before.sessions
    ensures LoginRemoves(before.sessions, user, call.device, Stamp(env, now), removed)
    ensures after.sessions.Keys == before.sessions.Keys - removed + {call.drawn.loginSessionId}
  {
    var hash, row, revoke := env.hash(call.phone), before.otp[env.hash(call.phone)], call.replies.revoke;
    var r;
    r, removed :| Completion(env, before, after, call.phone, row, call.device, call.drawn, revoke, now, r, removed);
    user :| && user in before.users && before.users[user].phone == call.phone
            && LoginOutcome(env, before, after, hash, row, user, call.device, call.drawn, revoke, now, r, removed);
    OutcomeRemoves(env, before, after, hash, row, user, call.device, call.drawn, revoke, now, r, removed);
  }

  lemma EvictedIsNotYounger(sessions: map<string, Session>, user: string, device: string, now: string,
                            removed: set<string>, e: string, k: string)
    requires Stores.KeyedById(sessions) && LoginRemoves(sessions, user, device, now, removed)
    requires e in removed && k in sessions && k !in removed
    requires e in sessions ==> sessions[e].deviceId != device && sessions[e].userId == sessions[k].userId
    requires sessions[k].deviceId != device && TextLess(now, sessions[k].expiresAt)
    ensures e in sessions && !TextLess(sessions[k].createdAt, sessions[e].createdAt)
  {
    RemovalOfLogin(sessions, user, device, now, removed);
    var others := ListableElsewhere(sessions, user, device, now);
    assert e in others * removed && k in others - removed;
  }

  lemma {:induction false} SessionsAreKeyed(env: Env, dbs: seq<Db>, calls: seq<Timed>, n: nat)
    requires IsSerialRun(env, dbs, calls) && n <= |calls|
    ensures Stores.KeyedById(dbs[n].sessions)
  {
    forall id | id in dbs[n].sessions
      ensures dbs[n].sessions[id].id == id
    {
      var i, j := SessionBiography(env, dbs, calls, n, id);
    }
  }

  /** Of the sessions on other devices, a login evicts those that were opened first: over any serial run, if a login
      goes through, removes session `e` and leaves session `k` of the same user, which is still listed, then `e` was
      opened no later than `k`, in whole seconds. */
  lemma LoginEvictsOldest(env: Env, dbs: seq<Db>, calls: seq<Timed>, n: nat, e: string, k: string)
    returns (first: nat, second: nat)
    requires TextOk(env) && IsSerialRun(env, dbs, calls) && n < |calls| && calls[n].call.Verify?
    requires !Unregistered(dbs[n].users, calls[n].call.phone)
    requires var id := calls[n].call.drawn.loginSessionId; id in dbs[n + 1].sessions && id !in dbs[n].sessions
    requires e in dbs[n].sessions && e !in dbs[n + 1].sessions && k in dbs[n].sessions && k in dbs[n + 1].sessions
    requires dbs[n].sessions[e].userId == dbs[n].sessions[k].userId
    requires dbs[n].sessions[e].deviceId != calls[n].call.device && dbs[n].sessions[k].deviceId != calls[n].call.device
    requires TextLess(Stamp(env, calls[n].now), dbs[n].sessions[k].expiresAt)
    ensures first < n && second < n && SecondsOf(calls[first].now) <= SecondsOf(calls[second].now)
    ensures IsOpening(env, dbs, calls, first, dbs[n].sessions[e])
    ensures IsOpening(env, dbs, calls, second, dbs[n].sessions[k])
  {
    var call, now, before := calls[n].call, calls[n].now, dbs[n];
    assert CallStep(env, dbs[n], calls[n], dbs[n + 1]);
    var user, removed := LoginWentThrough(env, before, call, now, dbs[n + 1]);
    SessionsAreKeyed(env, dbs, calls, n);
    EvictedIsNotYounger(before.sessions, user, call.device, Stamp(env, now), removed, e, k);
    var i, j;
    first, i := SessionBiography(env, dbs, calls, n, e);
    second, j := SessionBiography(env, dbs, calls, n, k);
    OpeningsInOrder(env, dbs, calls, first, second);
  }

  lemma OpeningsInOrder(env: Env, dbs: seq<Db>, calls: seq<Timed>, i: nat, j: nat)
    requires TextOk(env) && IsSerialRun(env, dbs, calls) && i < |calls| && j < |calls|
    ensures TextLess(env.text(SecondsOf(calls[j].now)), env.text(SecondsOf(calls[i].now)))
            <==> SecondsOf(calls[j].now) < SecondsOf(calls[i].now)
  {
    assert CallStep(env, dbs[i], calls[i], dbs[i + 1]) && CallStep(env, dbs[j], calls[j], dbs[j + 1]);
  }

  // ---------------------------------------------------------------- OTP rows and users

  /** Call `i` is the OTP request that stored this row, valid for five minutes. */
  ghost predicate IsStoring(env: Env, calls: seq<Timed>, i: nat, hash: string, row: OtpRow) {
    && i < |calls| && calls[i].call.Request? && env.hash(calls[i].call.phone) == hash
    && calls[i].call.n < Pow10(CODE_WIDTH)
    && row.mac == ComputeOtpMac(env.pepper, GenerateOtp(calls[i].call.n), hash, row.expiresAt)
    && row.createdAt == env.text(SecondsOf(calls[i].now))
    && row.ttl == SecondsOf(calls[i].now) + 300 && row.expiresAt == env.text(row.ttl)
  }

  /** What a call leaves of an OTP row: a new one, or the old one with its origin. */
  lemma OtpRowKeepsOrigin(env: Env, before: Db, call: ServiceCall, now: int, after: Db, hash: string)
    requires Effect(env, before, call, now, after) && hash in after.otp
    requires !(call.Request? && env.hash(call.phone) == hash && after != before)
    ensures hash in before.otp
    ensures var row := before.otp[hash]; after.otp[hash].(status := row.status, attempts := row.attempts) == row
  {
    if call.Verify? && after.otp != before.otp && after.otp != BumpAttempts(before.otp, env.hash(call.phone)) {
      var row, revoke := before.otp[env.hash(call.phone)], call.replies.revoke;
      var r, removed :|
        Completion(env, before, after, call.phone, row, call.device, call.drawn, revoke, now, r, removed);
      CompletionConsumes(env, before, after, call.phone, call.device, call.drawn, revoke, now, r, removed);
    }
  }

  /** Every stored OTP goes back to the request that stored it. */
  lemma {:induction false} OtpBiography(env: Env, dbs: seq<Db>, calls: seq<Timed>, n: nat, hash: string)
    returns (i: nat)
    requires IsSerialRun(env, dbs, calls) && n <= |calls| && hash in dbs[n].otp
    ensures i < n && IsStoring(env, calls, i, hash, dbs[n].otp[hash])
  {
    var k := n - 1;
    assert CallStep(env, dbs[k], calls[k], dbs[k + 1]);
    var call := calls[k].call;
    if call.Request? && env.hash(call.phone) == hash && dbs[n] != dbs[k] {
      ExpiryStamp(env, calls[k].now, OTP_VALIDITY);
      i := k;
    } else {
      OtpRowKeepsOrigin(env, dbs[k], call, calls[k].now, dbs[n], hash);
      i := OtpBiography(env, dbs, calls, k, hash);
    }
  }

  /** Call `i` is the verification that registered this user. */
  ghost predicate IsRegistering(env: Env, calls: seq<Timed>, i: nat, key: string, row: UserRow) {
    && i < |calls| && calls[i].call.Verify? && calls[i].call.phone == row.phone
    && match row
       case User(_, createdAt, updatedAt) =>
         && key == calls[i].call.drawn.userId
         && createdAt == env.text(SecondsOf(calls[i].now)) && updatedAt == createdAt
       case Sentinel(_, owner) => owner == calls[i].call.drawn.userId
  }

  lemma UserRowsStay(env: Env, before: Db, call: ServiceCall, now: int, after: Db, key: string)
    requires Effect(env, before, call, now, after) && key in after.users && (call.Verify? ==> IsUuid(call.drawn.userId))
    ensures || (key in before.users && after.users[key] == before.users[key])
            || IsRegistering(env, [Timed(call, now)], 0, key, after.users[key])
  {
    if after.users != before.users {
      SentinelKeyIsNoUuid(call.phone);
    }
  }

  /** Every user and every sentinel goes back to the verification that registered the phone. */
  lemma {:induction false} UserBiography(env: Env, dbs: seq<Db>, calls: seq<Timed>, n: nat, key: string)
    returns (i: nat)
    requires IsSerialRun(env, dbs, calls) && n <= |calls| && key in dbs[n].users
    ensures i < n && IsRegistering(env, calls, i, key, dbs[n].users[key])
  {
    var k := n - 1;
    assert CallStep(env, dbs[k], calls[k], dbs[k + 1]);
    UserRowsStay(env, dbs[k], calls[k].call, calls[k].now, dbs[n], key);
    if key in dbs[k].users && dbs[n].users[key] == dbs[k].users[key] {
      i := UserBiography(env, dbs, calls, k, key);
    } else {
      i := k;
    }
  }
}
