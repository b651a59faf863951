/** What the flows of the service may do to the tables, said without the objects: the outcomes of a login, a
    registration and a whole verification, the effect of every whole call, and what a login leaves behind. */
module Outcomes {
  import opened Domain
  import opened Rfc3339
  import opened Otp
  import opened Tables
  import opened Records
  import opened Eviction
  import opened RateLimit
  import opened AccessTokens
  import opened Stores
  import VerifyCall
  import RefreshChain

  /** `todo` is what a login of `user` from `device` at time text `now` deletes, in this order: the sessions on its
      device, then the oldest of the others. */
  ghost predicate LoginTodo(sessions: map<string, Session>, user: string, device: string, now: string,
                            todo: seq<Session>)
  {
    exists listed, evicted, kept ::
      && IsListing(sessions, user, now, listed)
      && IsSplit(OffDevice(listed, device), evicted, kept)
      && todo == OnDevice(listed, device) + evicted
  }

  /** `removed` is what such a login deletes when nothing stops it. */
  ghost predicate LoginRemoves(sessions: map<string, Session>, user: string, device: string, now: string,
                               removed: set<string>)
  {
    exists todo :: LoginTodo(sessions, user, device, now, todo) && removed == IdSet(todo)
  }

  // ---------------------------------------------------------------- answers from Redis

  /** Revocation keys set for all `ids` at `now`. */
  function RevokeIds(keys: map<string, int>, ids: set<string>, now: int): map<string, int> {
    keys + map id | id in ids :: now + REVOKED_TTL * NANOS
  }

  /** The calls to Redis that set a revocation key, by session id; those not named are answered. */
  type Replies = map<string, Reply>

  function ReplyTo(revoke: Replies, id: string): Reply {
    if id in revoke then revoke[id] else Delivered
  }

  predicate AllDelivered(todo: seq<Session>, revoke: Replies) {
    forall s | s in todo :: ReplyTo(revoke, s.id).Delivered?
  }

  /** The sessions that are deleted when a deletion whose revocation is not answered is the last one. */
  function Handled(todo: seq<Session>, revoke: Replies): seq<Session> {
    if todo == [] then []
    else if ReplyTo(revoke, todo[0].id).Delivered? then [todo[0]] + Handled(todo[1..], revoke)
    else [todo[0]]
  }

  /** The ids among `ids` whose revocation was carried out. */
  function Carried(ids: set<string>, revoke: Replies): set<string> {
    set id | id in ids && !ReplyTo(revoke, id).Refused?
  }

  lemma {:induction false} HandledAll(todo: seq<Session>, revoke: Replies)
    requires AllDelivered(todo, revoke)
    ensures Handled(todo, revoke) == todo
  {
    if todo != [] {
      HandledAll(todo[1..], revoke);
    }
  }

  /** Nothing after the first unanswered revocation is looked at. */
  lemma {:induction false} HandledStops(front: seq<Session>, x: Session, rest: seq<Session>, revoke: Replies)
    requires AllDelivered(front, revoke) && !ReplyTo(revoke, x.id).Delivered?
    ensures Handled(front + [x] + rest, revoke) == front + [x]
    ensures !AllDelivered(front + [x] + rest, revoke)
  {
    var todo := front + [x] + rest;
    assert x == todo[|front|];
    if front != [] {
      assert todo[0] == front[0] && todo[1..] == front[1..] + [x] + rest;
      HandledStops(front[1..], x, rest, revoke);
    }
  }

  lemma {:induction false} HandledSplits(first: seq<Session>, second: seq<Session>, revoke: Replies)
    ensures Handled(first + second, revoke)
            == if AllDelivered(first, revoke) then first + Handled(second, revoke) else Handled(first, revoke)
  {
    if first == [] {
      assert first + second == second;
    } else {
      assert (first + second)[1..] == first[1..] + second;
      HandledSplits(first[1..], second, revoke);
      assert first == [first[0]] + first[1..];
    }
  }

  lemma RevokeOneMore(keys: map<string, int>, ids: set<string>, id: string, now: int)
    ensures RevokeIds(keys, ids, now)[id := now + REVOKED_TTL * NANOS] == RevokeIds(keys, ids + {id}, now)
  {
    var a, b := RevokeIds(keys, ids, now)[id := now + REVOKED_TTL * NANOS], RevokeIds(keys, ids + {id}, now);
    assert a.Keys == b.Keys;
    assert forall k | k in a :: a[k] == b[k];
  }

  lemma IdSetAppend(xs: seq<Session>, x: Session)
    ensures IdSet(xs + [x]) == IdSet(xs) + {x.id}
  {
  }

  lemma CarriedAppend(xs: seq<Session>, x: Session, revoke: Replies)
    ensures Carried(IdSet(xs + [x]), revoke)
            == Carried(IdSet(xs), revoke) + if ReplyTo(revoke, x.id).Refused? then {} else {x.id}
  {
    IdSetAppend(xs, x);
  }

  lemma MinusOneMore(rows: map<string, Session>, ids: set<string>, id: string)
    ensures rows - ids - {id} == rows - (ids + {id})
  {
  }

  /** The effect of removing one more session. */
  lemma RemoveOneMore(rows: map<string, Session>, keys: map<string, int>, xs: seq<Session>, x: Session,
                      revoke: Replies, now: int)
    ensures rows - IdSet(xs) - {x.id} == rows - IdSet(xs + [x])
    ensures var keys' := RevokeIds(keys, Carried(IdSet(xs), revoke), now);
            RevokeIds(keys, Carried(IdSet(xs + [x]), revoke), now)
            == if ReplyTo(revoke, x.id).Refused? then keys' else keys'[x.id := now + REVOKED_TTL * NANOS]
  {
    IdSetAppend(xs, x);
    CarriedAppend(xs, x, revoke);
    RevokeOneMore(keys, Carried(IdSet(xs), revoke), x.id, now);
    MinusOneMore(rows, IdSet(xs), x.id);
  }

  lemma RemoveNone(rows: map<string, Session>, keys: map<string, int>, revoke: Replies, now: int)
    ensures IdSet([]) == {} && rows - {} == rows
    ensures RevokeIds(keys, Carried({}, revoke), now) == keys
  {
  }

  // ---------------------------------------------------------------- outcomes of a verification

  datatype VerifyResult = VerifyResult(userId: string, sessionId: string, refreshToken: string, isNew: bool)

  /** What one verification may draw at random: for a registration, and for a login. */
  datatype Drawn = Drawn(userId: string, sessionId: string, token: string, loginSessionId: string, loginToken: string)

  /** What Redis answers during one verification. */
  datatype VerifyReplies = VerifyReplies(gate: VerifyCall.GateReplies, revoke: Replies)

  /** What Redis answers to the two limits of an OTP request. */
  datatype RequestReplies = RequestReplies(phone: Reply, ip: Reply)

  ghost predicate Unregistered(users: map<string, UserRow>, phone: string) {
    forall k | k in users :: users[k].phone != phone
  }

  /** A login filed under `user`: sessions are deleted first, as far as Redis answers, and stay deleted; then OTP and
      session are written together, if the OTP is still the pending one that was read and the identifier is unused. */
  ghost predicate LoginOutcome(env: Env, before: Db, after: Db, hash: string, record: OtpRow, user: string,
                               device: string, drawn: Drawn, revoke: Replies, now: int, r: Result<VerifyResult>,
                               removed: set<string>)
  {
    exists todo ::
      && LoginTodo(before.sessions, user, device, Stamp(env, now), todo)
      && removed == IdSet(Handled(todo, revoke))
      && var left := before.(sessions := before.sessions - removed);
         var session := NewSession(env, drawn.loginSessionId, user, device, drawn.loginToken, now);
         var login := Login(hash, record.expiresAt, record.mac, session);
         if !AllDelivered(todo, revoke) then r == Err(ErrRedis) && after == left
         else if !MayLogin(left, login) then r == Err(ErrAlreadyExists) && after == left
         else
           && r == Ok(VerifyResult(user, drawn.loginSessionId, drawn.loginToken, false))
           && after == ApplyLogin(left, login)
  }

  function RegistrationOf(env: Env, phone: string, record: OtpRow, device: string, drawn: Drawn, now: int)
    : Registration
  {
    Registration(env.hash(phone), record.expiresAt, record.mac, drawn.userId, phone, Stamp(env, now),
                 NewSession(env, drawn.sessionId, drawn.userId, device, drawn.token, now))
  }

  /** A registration: all four items are written, or else the phone is looked up once more and, if a row carries it
      by now, the call goes on as a login. */
  ghost predicate RegistrationOutcome(env: Env, before: Db, after: Db, phone: string, record: OtpRow, device: string,
                                      drawn: Drawn, revoke: Replies, now: int, r: Result<VerifyResult>,
                                      removed: set<string>)
  {
    var p := RegistrationOf(env, phone, record, device, drawn, now);
    if MayRegister(before, p) then
      && removed == {} && after == ApplyRegistration(before, p)
      && r == Ok(VerifyResult(drawn.userId, drawn.sessionId, drawn.token, true))
    else if Unregistered(before.users, phone) then
      removed == {} && after == before && r == Err(ErrNotFound)
    else
      FoundOutcome(env, before, after, phone, record, device, drawn, revoke, now, r, removed)
  }

  /** A login filed under some row that carries the phone. */
  ghost predicate FoundOutcome(env: Env, before: Db, after: Db, phone: string, record: OtpRow, device: string,
                               drawn: Drawn, revoke: Replies, now: int, r: Result<VerifyResult>, removed: set<string>)
  {
    exists user | user in before.users && before.users[user].phone == phone ::
      LoginOutcome(env, before, after, env.hash(phone), record, user, device, drawn, revoke, now, r, removed)
  }

  /** What is left to do once a candidate has passed every check on `record`: a registration if no row carries the
      phone, and otherwise a login. */
  ghost predicate Completion(env: Env, before: Db, after: Db, phone: string, record: OtpRow, device: string,
                             drawn: Drawn, revoke: Replies, now: int, r: Result<VerifyResult>, removed: set<string>)
  {
    if Unregistered(before.users, phone) then
      RegistrationOutcome(env, before, after, phone, record, device, drawn, revoke, now, r, removed)
    else
      FoundOutcome(env, before, after, phone, record, device, drawn, revoke, now, r, removed)
  }

  // ---------------------------------------------------------------- the whole state

  /** The tables, and the counters and lockouts in Redis. */
  datatype Sys = Sys(db: Db, counters: map<string, Counter>, locks: map<string, int>)

  function VerifyKey(hash: string): string {
    "otp_verify:phone:" + hash
  }

  function LockKey(hash: string): string {
    "otp_lockout:phone:" + hash
  }

  function RequestKey(hash: string): string {
    "otp_req:phone:" + hash
  }

  function IpKey(ip: string): string {
    "otp_req:ip:" + ip
  }

  /** The counters of a request are not those of a verification, and each hash and each address has its own. */
  lemma KeysDiffer(hash: string, hash': string, ip: string)
    ensures RequestKey(hash) != IpKey(ip)
    ensures VerifyKey(hash) != RequestKey(hash') && VerifyKey(hash) != IpKey(ip)
    ensures VerifyKey(hash) == VerifyKey(hash') <==> hash == hash'
    ensures LockKey(hash) == LockKey(hash') <==> hash == hash'
    ensures RequestKey(hash) == RequestKey(hash') <==> hash == hash'
  {
    assert RequestKey(hash)[14..] == hash && RequestKey(hash')[14..] == hash';
    assert RequestKey(hash)[8] == 'p' && IpKey(ip)[8] == 'i';
    assert VerifyKey(hash)[4] == 'v' && RequestKey(hash')[4] == 'r' && IpKey(ip)[4] == 'r';
    assert VerifyKey(hash)[17..] == hash && VerifyKey(hash')[17..] == hash';
    assert LockKey(hash)[18..] == hash && LockKey(hash')[18..] == hash';
  }

  lemma AddressKeysDiffer(ip: string, ip': string)
    ensures IpKey(ip) == IpKey(ip') <==> ip == ip'
  {
    assert IpKey(ip)[11..] == ip && IpKey(ip')[11..] == ip';
  }

  /** What the checks of a verification read for one phone hash. */
  function AccountOf(sys: Sys, hash: string): VerifyCall.Account {
    VerifyCall.Account(Get(sys.counters, VerifyKey(hash)), Get(sys.locks, LockKey(hash)), Get(sys.db.otp, hash))
  }

  /** Whether an OTP request gets past the limit per phone, which fails closed. */
  predicate PassesPhoneLimit(env: Env, sys: Sys, phone: string, reply: Reply, now: int) {
    && reply.Delivered?
    && Incr(Get(sys.counters, RequestKey(env.hash(phone))), now, VerifyCall.WINDOW).count <= OTP_REQUEST_LIMIT_PER_PHONE
  }

  /** Whether it gets past the limit per address, which fails open. */
  predicate PassesIpLimit(sys: Sys, ip: string, reply: Reply, now: int) {
    reply.Delivered? ==> Incr(Get(sys.counters, IpKey(ip)), now, VerifyCall.WINDOW).count <= OTP_REQUEST_LIMIT_PER_IP
  }

  /** A whole OTP request: the checks in their order, the counters, and either a new row with its expiry or the stored
      row's expiry and no change. */
  ghost predicate RequestOutcome(env: Env, before: Sys, after: Sys, phone: string, ip: string, n: nat,
                                 replies: RequestReplies, now: int, r: Result<int>)
    requires n < Pow10(CODE_WIDTH)
  {
    if !ValidPhone(phone) then r == Err(ErrInvalidPhoneNumber) && after == before
    else
      var hash := env.hash(phone);
      var c := Incr(Get(before.counters, RequestKey(hash)), now, VerifyCall.WINDOW);
      var d := Incr(Get(before.counters, IpKey(ip)), now, VerifyCall.WINDOW);
      var passed := PassesPhoneLimit(env, before, phone, replies.phone, now);
      var counted := if replies.phone.Refused? then before.counters else before.counters[RequestKey(hash) := c];
      && after.locks == before.locks
      && after.counters == (if passed && !replies.ip.Refused? then counted[IpKey(ip) := d] else counted)
      && if !passed then
           && r == Err(if replies.phone.Delivered? then ErrPhoneRateLimited else ErrUnavailable)
           && after.db == before.db
         else if !PassesIpLimit(before, ip, replies.ip, now) then
           r == Err(ErrIpRateLimited) && after.db == before.db
         else if MayCreateOtp(before.db.otp, hash, Stamp(env, now)) then
           && after.db == before.db.(otp := before.db.otp[hash := NewOtp(env, phone, GenerateOtp(n), now)])
           && r == Ok(now + OTP_VALIDITY * NANOS)
         else
           && after.db == before.db
           && r == match env.read(before.db.otp[hash].expiresAt)
                   case None => Err(ErrParse)
                   case Some(e) => Ok(e * NANOS)
  }

  /** A whole verification: the verdict decides the error, the counters, the lockout and the attempts; a right
      candidate is completed by a registration or a login. */
  ghost predicate VerifyOutcome(env: Env, before: Sys, after: Sys, phone: string, candidate: string, device: string,
                                drawn: Drawn, replies: VerifyReplies, now: int, r: Result<VerifyResult>,
                                removed: set<string>)
  {
    if !ValidPhone(phone) then r == Err(ErrInvalidPhoneNumber) && after == before && removed == {}
    else if device == "" then r == Err(ErrInvalidInput) && after == before && removed == {}
    else
      var hash, acc := env.hash(phone), AccountOf(before, env.hash(phone));
      var v := VerifyCall.Judge(env, hash, acc, candidate, replies.gate, now);
      && after.counters == (if replies.gate.limit.Refused? then before.counters
                            else before.counters[VerifyKey(hash) := Incr(acc.counter, now, VerifyCall.WINDOW)])
      && after.locks == (if v.Exhausted? && !replies.gate.setLock.Refused?
                         then before.locks[LockKey(hash) := now + VerifyCall.LOCKOUT] else before.locks)
      && if v.Right? then
           && hash in before.db.otp
           && Completion(env, before.db, after.db, phone, before.db.otp[hash], device, drawn, replies.revoke, now, r,
                         removed)
         else
           && r == Err(VerifyCall.ErrorOf(v)) && removed == {}
           && after.db == if v.Wrong? then before.db.(otp := BumpAttempts(before.db.otp, hash)) else before.db
  }

  /** An OTP request that passes its limits stores an OTP exactly when there is none, or a consumed one, or one whose
      expiry second is over; and whenever it succeeds, it answers with the expiry of the OTP that is stored then. */
  lemma RequestStoresExactly(env: Env, before: Sys, after: Sys, phone: string, ip: string, n: nat,
                             replies: RequestReplies, now: int, r: Result<int>)
    requires TextOk(env) && ClockOk(now) && n < Pow10(CODE_WIDTH) && ValidPhone(phone)
    requires RequestOutcome(env, before, after, phone, ip, n, replies, now, r)
    requires var otp, hash := before.db.otp, env.hash(phone);
             hash in otp ==> ExpiryOk(env, otp[hash].expiresAt, otp[hash].ttl)
    ensures var hash := env.hash(phone);
            var free := hash !in before.db.otp || before.db.otp[hash].status.Verified?
                        || before.db.otp[hash].ttl < SecondsOf(now);
            && (r.Ok? ==> (after.db != before.db <==> free))
            && (r.Ok? ==> hash in after.db.otp && SecondsOf(r.value) == after.db.otp[hash].ttl)
            && (r.Ok? && free ==> r.value == now + OTP_VALIDITY * NANOS)
            && (r.Err? ==> after.db == before.db)
  {
    var hash := env.hash(phone);
    ExpiryStamp(env, now, OTP_VALIDITY);
    if hash in before.db.otp {
      var ttl := before.db.otp[hash].ttl;
      assert TextLess(env.text(ttl), env.text(SecondsOf(now))) <==> ttl < SecondsOf(now);
      DivisionIsUnique(ttl * NANOS, NANOS, ttl, 0);
    }
  }

  /** What a caller is told about a session is what is stored: the session named in a result is in the table, belongs
      to the user named, who carries the phone, on the device, under the token handed out; the OTP is consumed; and the
      user is new exactly when no row carried the phone before. */
  lemma ResultNamesSession(env: Env, before: Db, after: Db, phone: string, record: OtpRow, device: string, drawn: Drawn,
                           revoke: Replies, now: int, r: Result<VerifyResult>, removed: set<string>)
    requires Completion(env, before, after, phone, record, device, drawn, revoke, now, r, removed) && r.Ok?
    requires IsUuid(drawn.userId)
    ensures var v, hash := r.value, env.hash(phone);
            && v.sessionId in after.sessions
            && after.sessions[v.sessionId].id == v.sessionId && after.sessions[v.sessionId].userId == v.userId
            && after.sessions[v.sessionId].deviceId == device
            && after.sessions[v.sessionId].refreshHash == Sha256(v.refreshToken)
            && v.userId in after.users && after.users[v.userId].phone == phone
            && hash in before.otp && before.otp[hash].status.Pending?
            && hash in after.otp && after.otp[hash].status.Verified?
            && (v.isNew <==> Unregistered(before.users, phone))
            && (v.isNew ==> after.users[v.userId].User? && v.userId !in before.users)
            && (!v.isNew ==> after.users == before.users)
  {
    SentinelKeyIsNoUuid(phone);
  }

  // ---------------------------------------------------------------- whole calls

  /** A whole call of the service, with what it draws and what Redis answers, or a removal by TTL; `id` is the session
      that a valid access token names. */
  datatype ServiceCall =
    | Request(phone: string, ip: string, n: nat, limits: RequestReplies)
    | Verify(phone: string, candidate: string, device: string, drawn: Drawn, replies: VerifyReplies)
    | Refresh(id: string, device: string, token: string, next: string)
    | Logout(id: string)
    | ExpireOtp(hash: string)
    | ExpireSession(id: string)

  /** What a whole call at `now` may do to the tables. A rejected call changes nothing. */
  ghost predicate Effect(env: Env, before: Db, call: ServiceCall, now: int, after: Db) {
    after == before ||
    match call
    case Request(phone, _, n, _) =>
      var hash := env.hash(phone);
      && ValidPhone(phone) && n < Pow10(CODE_WIDTH) && MayCreateOtp(before.otp, hash, Stamp(env, now))
      && after == before.(otp := before.otp[hash := NewOtp(env, phone, GenerateOtp(n), now)])
    case Verify(phone, candidate, device, drawn, replies) =>
      var hash := env.hash(phone);
      var v := VerifyCall.Examine(env, hash, Get(before.otp, hash), candidate, now);
      && ValidPhone(phone) && device != "" && hash in before.otp
      && if v.Wrong? then after == before.(otp := BumpAttempts(before.otp, hash))
         else v.Right? && exists r, removed ::
                Completion(env, before, after, phone, before.otp[hash], device, drawn, replies.revoke, now, r, removed)
    case Refresh(id, device, token, next) =>
      var d := RefreshChain.Decide(env, before.sessions, id, device, token, now);
      && (d.Rotate? || d.Reuse?) && id in before.sessions
      && after == before.(sessions := RefreshChain.AfterRefresh(env, before.sessions, id, d, next, now))
    case Logout(id) => after == before.(sessions := before.sessions - {id})
    case ExpireOtp(hash) =>
      hash in before.otp && before.otp[hash].ttl < SecondsOf(now) && after == before.(otp := before.otp - {hash})
    case ExpireSession(id) =>
      && id in before.sessions && before.sessions[id].ttl < SecondsOf(now)
      && after == before.(sessions := before.sessions - {id})
  }

  /** What a whole call at `now` may do to the whole state. */
  ghost predicate Performs(env: Env, before: Sys, call: ServiceCall, now: int, after: Sys) {
    match call
    case Request(phone, ip, n, limits) =>
      n < Pow10(CODE_WIDTH) && exists r :: RequestOutcome(env, before, after, phone, ip, n, limits, now, r)
    case Verify(phone, candidate, device, drawn, replies) =>
      exists r, removed :: VerifyOutcome(env, before, after, phone, candidate, device, drawn, replies, now, r, removed)
    case _ =>
      && after.counters == before.counters && after.locks == before.locks
      && Effect(env, before.db, call, now, after.db)
  }

  lemma PerformsIsEffect(env: Env, before: Sys, call: ServiceCall, now: int, after: Sys)
    requires Performs(env, before, call, now, after)
    ensures Effect(env, before.db, call, now, after.db)
  {
    if call.Verify? {
      var r, removed :| VerifyOutcome(env, before, after, call.phone, call.candidate, call.device, call.drawn,
                                      call.replies, now, r, removed);
    }
  }

  lemma RefreshIsEffect(env: Env, before: Db, id: string, device: string, token: string, next: string, now: int)
    ensures var d := RefreshChain.Decide(env, before.sessions, id, device, token, now);
            Effect(env, before, Refresh(id, device, token, next), now,
                   before.(sessions := RefreshChain.AfterRefresh(env, before.sessions, id, d, next, now)))
  {
  }

  lemma RemoveTwice(rows: map<string, Session>, keys: map<string, int>, xs: seq<Session>, ys: seq<Session>,
                    revoke: Replies, now: int)
    ensures rows - IdSet(xs) - IdSet(ys) == rows - IdSet(xs + ys)
    ensures RevokeIds(RevokeIds(keys, Carried(IdSet(xs), revoke), now), Carried(IdSet(ys), revoke), now)
            == RevokeIds(keys, Carried(IdSet(xs + ys), revoke), now)
  {
    IdSetConcat(xs, ys);
    var a, b := Carried(IdSet(xs), revoke), Carried(IdSet(ys), revoke);
    assert Carried(IdSet(xs + ys), revoke) == a + b;
    RevokeTwice(keys, a, b, now);
    assert rows - IdSet(xs) - IdSet(ys) == rows - (IdSet(xs) + IdSet(ys));
  }

  lemma RevokeTwice(keys: map<string, int>, a: set<string>, b: set<string>, now: int)
    ensures RevokeIds(RevokeIds(keys, a, now), b, now) == RevokeIds(keys, a + b, now)
  {
    var x, y := RevokeIds(RevokeIds(keys, a, now), b, now), RevokeIds(keys, a + b, now);
    assert x.Keys == y.Keys;
    assert forall k | k in x :: x[k] == y[k];
  }

  /** What a completed verification leaves of the OTP table: its own row is consumed or as it was. */
  lemma CompletionConsumes(env: Env, before: Db, after: Db, phone: string, device: string, drawn: Drawn,
                           revoke: Replies, now: int, r: Result<VerifyResult>, removed: set<string>)
    requires env.hash(phone) in before.otp
    requires Completion(env, before, after, phone, before.otp[env.hash(phone)], device, drawn, revoke, now, r, removed)
    ensures after.otp == before.otp || after.otp == ConsumeOtp(before.otp, env.hash(phone))
  {
  }

  /** If no row carries the phone, its sentinel key is free. */
  lemma NoSentinel(users: map<string, UserRow>, phone: string)
    requires UsersOk(users) && forall k | k in users :: users[k].phone != phone
    ensures SentinelKey(phone) !in users
  {
    if SentinelKey(phone) in users {
      assert UserRowOk(users, SentinelKey(phone));
      SentinelKeyIsNoUuid(phone);
      SentinelKeyInjective(phone, users[SentinelKey(phone)].phone);
    }
  }

  /** With Redis answering and the OTP unchanged since it was read, what remains of a verification fails exactly when
      an identifier it draws is in use; and whenever it fails, only removed sessions are missing afterwards. */
  lemma CompletionSucceedsExactly(env: Env, before: Db, after: Db, phone: string, record: OtpRow, device: string,
                                  drawn: Drawn, now: int, r: Result<VerifyResult>, removed: set<string>)
    requires UsersOk(before.users) && OtpMatches(before.otp, env.hash(phone), record.expiresAt, record.mac)
    requires Completion(env, before, after, phone, record, device, drawn, map[], now, r, removed)
    ensures r.Ok? <==> if Unregistered(before.users, phone)
                       then drawn.userId !in before.users && drawn.sessionId !in before.sessions
                       else drawn.loginSessionId !in before.sessions - removed
    ensures r.Err? ==> after == before.(sessions := before.sessions - removed)
  {
    if Unregistered(before.users, phone) {
      NoSentinel(before.users, phone);
      assert before.sessions - {} == before.sessions;
    }
  }

  /** A registration of a phone that turns out to be registered, because the lookup lagged or another call was faster,
      goes on as a login: with Redis answering, it succeeds exactly when the OTP is still the one that was read and the
      identifier drawn for the login is unused, and it is never reported as new. */
  lemma LateRegistrationLogsIn(env: Env, before: Db, after: Db, phone: string, record: OtpRow, device: string,
                               drawn: Drawn, now: int, r: Result<VerifyResult>, removed: set<string>)
    requires UsersOk(before.users) && !Unregistered(before.users, phone)
    requires RegistrationOutcome(env, before, after, phone, record, device, drawn, map[], now, r, removed)
    ensures r.Ok? <==> && OtpMatches(before.otp, env.hash(phone), record.expiresAt, record.mac)
                       && drawn.loginSessionId !in before.sessions - removed
    ensures r.Ok? ==> !r.value.isNew && r.value.sessionId == drawn.loginSessionId && r.value.userId in before.users
                      && before.users[r.value.userId].phone == phone && after.users == before.users
    ensures r.Err? ==> r.error == ErrAlreadyExists && after == before.(sessions := before.sessions - removed)
  {
    var k :| k in before.users && before.users[k].phone == phone;
    assert UserRowOk(before.users, k);
  }

  // ---------------------------------------------------------------- what a login leaves

  /** The sessions of `user` that the index would list. */
  function Listable(sessions: map<string, Session>, user: string, now: string): set<string> {
    set id | id in sessions && sessions[id].userId == user && TextLess(now, sessions[id].expiresAt)
  }

  function ListableElsewhere(sessions: map<string, Session>, user: string, device: string, now: string): set<string> {
    set id | id in Listable(sessions, user, now) && sessions[id].deviceId != device
  }

  lemma {:induction false} OffDeviceDistinct(listed: seq<Session>, device: string)
    requires DistinctIds(listed)
    ensures DistinctIds(OffDevice(listed, device))
  {
    if listed != [] {
      var front, last := listed[..|listed| - 1], listed[|listed| - 1];
      OffDeviceDistinct(front, device);
      var rest, others := OffDevice(front, device), OffDevice(listed, device);
      forall i, j | 0 <= i < j < |others|
        ensures others[i].id != others[j].id
      {
        assert rest[i] in front;
      }
    }
  }

  /** Every table has a listing. */
  lemma {:induction false} ListingExists(sessions: map<string, Session>, user: string, now: string)
    returns (listed: seq<Session>)
    requires KeyedById(sessions)
    ensures IsListing(sessions, user, now, listed)
    decreases |sessions|
  {
    listed := [];
    if sessions.Keys != {} {
      var id :| id in sessions;
      var rest := sessions - {id};
      assert sessions == rest[id := sessions[id]];
      listed := ListingExists(rest, user, now);
      if sessions[id].userId == user && TextLess(now, sessions[id].expiresAt) {
        listed := listed + [sessions[id]];
      }
    }
  }

  lemma NoneOnDevice(listed: seq<Session>, device: string)
    requires forall s | s in listed :: s.deviceId != device
    ensures OnDevice(listed, device) == []
  {
    assert forall s :: s !in OnDevice(listed, device);
  }

  /** A user with at most four listable sessions, none of them on the device, loses none by a login. */
  lemma NothingToRemove(sessions: map<string, Session>, user: string, device: string, now: string)
    requires KeyedById(sessions) && |Listable(sessions, user, now)| < MAX_SESSIONS_PER_USER
    requires forall id | id in Listable(sessions, user, now) :: sessions[id].deviceId != device
    ensures LoginTodo(sessions, user, device, now, [])
  {
    var listed := ListingExists(sessions, user, now);
    var off := OffDevice(listed, device);
    ListedIds(sessions, user, device, now, listed);
    NoneOnDevice(listed, device);
    OffDeviceDistinct(listed, device);
    IdSetExact(off);
    SubsetSize(IdSet(off), Listable(sessions, user, now));
    assert IsSplit(off, [], off);
  }

  /** With distinct ids, evicted and kept ids are disjoint and none is counted twice. */
  lemma SplitSizes(others: seq<Session>, evicted: seq<Session>, kept: seq<Session>)
    requires DistinctIds(others)
    requires IsSplit(others, evicted, kept)
    ensures IdSet(others) == IdSet(evicted) + IdSet(kept)
    ensures IdSet(evicted) * IdSet(kept) == {}
    ensures |IdSet(kept)| == |kept| && |IdSet(others)| == |others|
  {
    forall s
      ensures s in others <==> s in evicted || s in kept
    {
      assert s in others <==> s in multiset(others);
      assert multiset(others)[s] == multiset(evicted)[s] + multiset(kept)[s];
    }
    assert IdSet(others) == IdSet(evicted) + IdSet(kept);
    assert |others| == |multiset(others)| == |multiset(evicted) + multiset(kept)| == |evicted| + |kept|;
    IdSetExact(others);
    IdSetSize(evicted);
    IdSetSize(kept);
    UnionSize(IdSet(evicted), IdSet(kept));
  }

  lemma ListedIds(sessions: map<string, Session>, user: string, device: string, now: string, listed: seq<Session>)
    requires KeyedById(sessions) && IsListing(sessions, user, now, listed)
    ensures IdSet(listed) == Listable(sessions, user, now)
    ensures IdSet(OffDevice(listed, device)) == ListableElsewhere(sessions, user, device, now)
    ensures IdSet(OnDevice(listed, device))
            == Listable(sessions, user, now) - ListableElsewhere(sessions, user, device, now)
  {
    forall id | id in Listable(sessions, user, now)
      ensures sessions[id] in listed && sessions[id].id == id
    {
    }
  }

  lemma SplitSets(all: set<string>, others: set<string>, evicted: set<string>, kept: set<string>)
    requires others <= all && others == evicted + kept && evicted * kept == {}
    ensures var removed := (all - others) + evicted;
            removed <= all && others - removed == kept && others * removed == evicted
  {
    assert forall x :: !(x in evicted && x in kept) by {
      assert forall x :: x in evicted && x in kept ==> x in evicted * kept;
    }
  }

  lemma KeptAndRemoved(sessions: map<string, Session>, user: string, device: string, now: string,
                       listed: seq<Session>, evicted: seq<Session>, kept: seq<Session>)
    requires KeyedById(sessions) && IsListing(sessions, user, now, listed)
    requires IsSplit(OffDevice(listed, device), evicted, kept)
    ensures var others := ListableElsewhere(sessions, user, device, now);
            var removed := IdSet(OnDevice(listed, device) + evicted);
            && removed <= Listable(sessions, user, now)
            && others - removed == IdSet(kept) && others * removed == IdSet(evicted)
            && |others - removed| == Min(|others|, MAX_SESSIONS_PER_USER - 1)
  {
    ListedIds(sessions, user, device, now, listed);
    OffDeviceDistinct(listed, device);
    SplitSizes(OffDevice(listed, device), evicted, kept);
    var all, others := Listable(sessions, user, now), ListableElsewhere(sessions, user, device, now);
    assert others <= all;
    SplitSets(all, others, IdSet(evicted), IdSet(kept));
    IdSetConcat(OnDevice(listed, device), evicted);
  }

  lemma EvictedAreOldest(sessions: map<string, Session>, user: string, device: string, now: string,
                         listed: seq<Session>, evicted: seq<Session>, kept: seq<Session>, e: string, k: string)
    requires IsListing(sessions, user, now, listed)
    requires IsSplit(OffDevice(listed, device), evicted, kept) && e in IdSet(evicted) && k in IdSet(kept)
    ensures e in sessions && k in sessions && !TextLess(sessions[k].createdAt, sessions[e].createdAt)
  {
    SplitCovers(listed, device, evicted, kept);
    var x: Session :| x in evicted && x.id == e;
    var y: Session :| y in kept && y.id == k;
    assert x in listed && y in listed;
  }

  /** After the removal and the new session, the user's listable sessions are the kept ones and the new one. */
  lemma ListableAfter(sessions: map<string, Session>, user: string, device: string, now: string, removed: set<string>,
                      session: Session)
    requires session.userId == user && session.id !in sessions && TextLess(now, session.expiresAt)
    requires Listable(sessions, user, now) - ListableElsewhere(sessions, user, device, now) <= removed
    ensures Listable((sessions - removed)[session.id := session], user, now)
            == (ListableElsewhere(sessions, user, device, now) - removed) + {session.id}
  {
  }

  /** What a login removes: all listable sessions on the device, and of the k on other devices all but min(k, 4),
      none of them created after one that stays. */
  lemma RemovalOfLogin(sessions: map<string, Session>, user: string, device: string, now: string, removed: set<string>)
    requires KeyedById(sessions) && LoginRemoves(sessions, user, device, now, removed)
    ensures removed <= Listable(sessions, user, now)
    ensures var others := ListableElsewhere(sessions, user, device, now);
            && Listable(sessions, user, now) - others <= removed
            && |others - removed| == Min(|others|, MAX_SESSIONS_PER_USER - 1)
            && forall e, k | e in others * removed && k in others - removed ::
                 !TextLess(sessions[k].createdAt, sessions[e].createdAt)
  {
    var todo :| LoginTodo(sessions, user, device, now, todo) && removed == IdSet(todo);
    var listed, evicted, kept :| && IsListing(sessions, user, now, listed)
                                 && IsSplit(OffDevice(listed, device), evicted, kept)
                                 && todo == OnDevice(listed, device) + evicted;
    var others := ListableElsewhere(sessions, user, device, now);
    KeptAndRemoved(sessions, user, device, now, listed, evicted, kept);
    ListedIds(sessions, user, device, now, listed);
    IdSetConcat(OnDevice(listed, device), evicted);
    forall e, k | e in others * removed && k in others - removed
      ensures !TextLess(sessions[k].createdAt, sessions[e].createdAt)
    {
      EvictedAreOldest(sessions, user, device, now, listed, evicted, kept, e, k);
    }
  }

  /** From any table: a login removes only listable sessions of its user; of the k on other devices it keeps
      exactly min(k, 4); no removed one of these was created after a kept one; and afterwards the user has the
      kept sessions and the new one. */
  lemma LoginKeepsYoungest(sessions: map<string, Session>, user: string, device: string, now: string,
                           removed: set<string>, session: Session)
    requires KeyedById(sessions) && LoginRemoves(sessions, user, device, now, removed)
    requires session.id !in sessions && session.userId == user && TextLess(now, session.expiresAt)
    ensures removed <= Listable(sessions, user, now)
    ensures var others := ListableElsewhere(sessions, user, device, now);
            var after := (sessions - removed)[session.id := session];
            && |others - removed| == Min(|others|, MAX_SESSIONS_PER_USER - 1)
            && Listable(after, user, now) == (others - removed) + {session.id}
            && |Listable(after, user, now)| <= MAX_SESSIONS_PER_USER
            && forall e, k | e in others * removed && k in others - removed ::
                 !TextLess(sessions[k].createdAt, sessions[e].createdAt)
  {
    RemovalOfLogin(sessions, user, device, now, removed);
    ListableAfter(sessions, user, device, now, removed, session);
  }
}
