/** TTL removal deletes rows some time after their expiry, at moments the service does not control. It never
    changes whether the next call succeeds; what it can change is the lockout that an exhausted row would cause. */
module TtlRemoval {
  import opened Domain
  import opened Rfc3339
  import opened Otp
  import opened Tables
  import opened Records
  import Outcomes
  import opened VerifyCall
  import Protocol
  import ProtocolHistory
  import RateLimit
  import RefreshChain

  ghost predicate RowsOk(env: Env, db: Db) {
    && (forall h | h in db.otp :: ExpiryOk(env, db.otp[h].expiresAt, db.otp[h].ttl))
    && (forall id | id in db.sessions :: ExpiryOk(env, db.sessions[id].expiresAt, db.sessions[id].ttl))
  }

  /** In every state of every run of the protocol, the ttl of each OTP and session row is its expiry text read back. */
  lemma RunRowsOk(env: Env, states: seq<Protocol.State>, steps: seq<Protocol.Step>, n: nat)
    requires TextOk(env) && Protocol.IsRun(env, states, steps) && n < |states|
    ensures RowsOk(env, states[n].w.db)
    ensures forall h | h in states[n].w.db.otp ::
              env.read(states[n].w.db.otp[h].expiresAt) == Some(states[n].w.db.otp[h].ttl)
    ensures forall id | id in states[n].w.db.sessions ::
              env.read(states[n].w.db.sessions[id].expiresAt) == Some(states[n].w.db.sessions[id].ttl)
  {
    ProtocolHistory.RunKeepsState(env, states, steps, n);
    var w := states[n].w;
    forall h | h in w.db.otp
      ensures ExpiryOk(env, w.db.otp[h].expiresAt, w.db.otp[h].ttl)
    {
      assert ProtocolHistory.OtpRowOk(env, w, h);
    }
    forall id | id in w.db.sessions
      ensures ExpiryOk(env, w.db.sessions[id].expiresAt, w.db.sessions[id].ttl)
    {
      assert ProtocolHistory.SessionOk(env, w, id);
    }
  }

  /** `db'` is `db` without some rows whose ttl lies before the current second. */
  ghost predicate Pruned(db: Db, db': Db, now: int) {
    && db'.users == db.users
    && db'.otp.Keys <= db.otp.Keys && (forall h | h in db'.otp :: db'.otp[h] == db.otp[h])
    && db'.sessions.Keys <= db.sessions.Keys && (forall id | id in db'.sessions :: db'.sessions[id] == db.sessions[id])
    && (forall h | h in db.otp && h !in db'.otp :: db.otp[h].ttl < SecondsOf(now))
    && (forall id | id in db.sessions && id !in db'.sessions :: db.sessions[id].ttl < SecondsOf(now))
  }

  /** A row past its ttl second fails both expiry tests: the one on parsed times and the one on text. */
  lemma PastTtlIsExpired(env: Env, expiresAt: string, ttl: int, now: int)
    requires TextOk(env) && ExpiryOk(env, expiresAt, ttl) && ClockOk(now) && ttl < SecondsOf(now)
    ensures ExpiredAt(env, expiresAt, now)
    ensures TextLess(expiresAt, Stamp(env, now)) && !TextLess(Stamp(env, now), expiresAt)
  {
    assert TextLess(env.text(ttl), env.text(SecondsOf(now))) <==> ttl < SecondsOf(now);
    assert TextLess(env.text(SecondsOf(now)), env.text(ttl)) <==> SecondsOf(now) < ttl;
  }

  /** The next OTP request stores a new OTP or not, as it would have. */
  lemma RequestUnaffected(env: Env, db: Db, db': Db, hash: string, now: int)
    requires TextOk(env) && RowsOk(env, db) && Pruned(db, db', now) && ClockOk(now)
    ensures MayCreateOtp(db'.otp, hash, Stamp(env, now)) == MayCreateOtp(db.otp, hash, Stamp(env, now))
  {
    if hash in db.otp && hash !in db'.otp {
      PastTtlIsExpired(env, db.otp[hash].expiresAt, db.otp[hash].ttl, now);
    }
  }

  predicate IsExhausted(row: OtpRow) {
    row.status.Pending? && row.attempts >= MAX_OTP_VERIFY_ATTEMPTS
  }

  /** The next verification gets past its checks or not, as it would have; and if the row that was removed was not an
      exhausted one, it fails them with the same error. */
  lemma VerifyUnaffected(env: Env, db: Db, db': Db, acc: Account, acc': Account, hash: string,
                         candidate: string, replies: GateReplies, now: int)
    requires TextOk(env) && RowsOk(env, db) && Pruned(db, db', now) && ClockOk(now)
    requires acc.row == Get(db.otp, hash) && acc' == acc.(row := Get(db'.otp, hash))
    ensures var v := Judge(env, hash, acc, candidate, replies, now);
            var v' := Judge(env, hash, acc', candidate, replies, now);
            && v'.Right? == v.Right?
            && (!v.Right? && (hash in db.otp && hash !in db'.otp ==> !IsExhausted(db.otp[hash])) ==>
                  ErrorOf(v') == ErrorOf(v))
  {
    if hash in db.otp && hash !in db'.otp {
      PastTtlIsExpired(env, db.otp[hash].expiresAt, db.otp[hash].ttl, now);
    }
  }

  /** A login then sees the same sessions and removes the same ones, in the same order. */
  lemma LoginUnaffected(env: Env, db: Db, db': Db, user: string, device: string, now: int, todo: seq<Session>)
    requires TextOk(env) && RowsOk(env, db) && Pruned(db, db', now) && ClockOk(now)
    ensures Outcomes.LoginTodo(db'.sessions, user, device, Stamp(env, now), todo)
            <==> Outcomes.LoginTodo(db.sessions, user, device, Stamp(env, now), todo)
  {
    forall listed
      ensures IsListing(db'.sessions, user, Stamp(env, now), listed)
              <==> IsListing(db.sessions, user, Stamp(env, now), listed)
    {
      ListingUnaffected(env, db, db', user, now, listed);
    }
  }

  lemma ListingUnaffected(env: Env, db: Db, db': Db, user: string, now: int, listed: seq<Session>)
    requires TextOk(env) && RowsOk(env, db) && Pruned(db, db', now) && ClockOk(now)
    ensures IsListing(db'.sessions, user, Stamp(env, now), listed)
            <==> IsListing(db.sessions, user, Stamp(env, now), listed)
  {
    forall s: Session | TextLess(Stamp(env, now), s.expiresAt)
      ensures s.id in db'.sessions && db'.sessions[s.id] == s <==> s.id in db.sessions && db.sessions[s.id] == s
    {
      if s.id in db.sessions && s.id !in db'.sessions && db.sessions[s.id] == s {
        PastTtlIsExpired(env, s.expiresAt, s.ttl, now);
      }
    }
  }

  /** The next refresh succeeds or not as it would have. */
  lemma RefreshUnaffected(env: Env, db: Db, db': Db, id: string, device: string, token: string, now: int)
    requires TextOk(env) && RowsOk(env, db) && Pruned(db, db', now) && ClockOk(now)
    ensures RefreshChain.Decide(env, db'.sessions, id, device, token, now).Rotate?
            == RefreshChain.Decide(env, db.sessions, id, device, token, now).Rotate?
  {
    if id in db.sessions && id !in db'.sessions {
      PastTtlIsExpired(env, db.sessions[id].expiresAt, db.sessions[id].ttl, now);
    }
  }

  // ---------------------------------------------------------------- a whole verification

  /** Two tables between which what follows the checks cannot tell: the same users, the same OTP row, the same
      deletions for every login, and neither holds an identifier that is drawn. */
  ghost predicate Similar(env: Env, db: Db, db': Db, hash: string, drawn: Outcomes.Drawn, now: int) {
    && db.users == db'.users
    && hash in db.otp && hash in db'.otp && db.otp[hash] == db'.otp[hash]
    && drawn.sessionId !in db.sessions && drawn.sessionId !in db'.sessions
    && drawn.loginSessionId !in db.sessions && drawn.loginSessionId !in db'.sessions
    && forall user, device, todo ::
         Outcomes.LoginTodo(db.sessions, user, device, Stamp(env, now), todo)
         <==> Outcomes.LoginTodo(db'.sessions, user, device, Stamp(env, now), todo)
  }

  lemma LoginIsSimilar(env: Env, db: Db, db': Db, after: Db, hash: string, user: string, device: string,
                       drawn: Outcomes.Drawn, revoke: Outcomes.Replies, now: int,
                       r: Result<Outcomes.VerifyResult>, removed: set<string>) returns (after': Db)
    requires Similar(env, db, db', hash, drawn, now)
    requires Outcomes.LoginOutcome(env, db, after, hash, db.otp[hash], user, device, drawn, revoke, now, r, removed)
    ensures Outcomes.LoginOutcome(env, db', after', hash, db'.otp[hash], user, device, drawn, revoke, now, r, removed)
  {
    var left := db'.(sessions := db'.sessions - removed);
    var session := NewSession(env, drawn.loginSessionId, user, device, drawn.loginToken, now);
    var login := Login(hash, db.otp[hash].expiresAt, db.otp[hash].mac, session);
    after' := if r.Ok? && MayLogin(left, login) then ApplyLogin(left, login) else left;
  }

  lemma CompletionIsSimilar(env: Env, db: Db, db': Db, after: Db, phone: string, device: string, drawn: Outcomes.Drawn,
                            revoke: Outcomes.Replies, now: int, r: Result<Outcomes.VerifyResult>, removed: set<string>)
    returns (after': Db)
    requires var hash := env.hash(phone);
             && Similar(env, db, db', hash, drawn, now)
             && Outcomes.Completion(env, db, after, phone, db.otp[hash], device, drawn, revoke, now, r, removed)
    ensures var hash := env.hash(phone);
            Outcomes.Completion(env, db', after', phone, db'.otp[hash], device, drawn, revoke, now, r, removed)
  {
    var hash := env.hash(phone);
    if Outcomes.Unregistered(db.users, phone) {
      var p := Outcomes.RegistrationOf(env, phone, db.otp[hash], device, drawn, now);
      after' := if MayRegister(db', p) then ApplyRegistration(db', p) else db';
    } else {
      var user :| && user in db.users && db.users[user].phone == phone
                  && Outcomes.LoginOutcome(env, db, after, hash, db.otp[hash], user, device, drawn, revoke, now, r,
                                           removed);
      after' := LoginIsSimilar(env, db, db', after, hash, user, device, drawn, revoke, now, r, removed);
    }
  }

  /** A whole verification can end in `r`. */
  ghost predicate Possible(env: Env, sys: Outcomes.Sys, call: Outcomes.ServiceCall, now: int,
                           r: Result<Outcomes.VerifyResult>)
    requires call.Verify?
  {
    exists after, removed ::
      Outcomes.VerifyOutcome(env, sys, after, call.phone, call.candidate, call.device, call.drawn, call.replies, now, r,
                             removed)
  }

  /** If both states give the same verdict and similar tables, what is possible in one is possible in the other. */
  lemma PossibleIsSimilar(env: Env, sys: Outcomes.Sys, sys': Outcomes.Sys, call: Outcomes.ServiceCall, now: int,
                          r: Result<Outcomes.VerifyResult>)
    requires call.Verify? && Possible(env, sys, call, now, r)
    requires sys'.counters == sys.counters && sys'.locks == sys.locks
    requires var hash, gate := env.hash(call.phone), call.replies.gate;
             var v := Judge(env, hash, Outcomes.AccountOf(sys, hash), call.candidate, gate, now);
             var v' := Judge(env, hash, Outcomes.AccountOf(sys', hash), call.candidate, gate, now);
             && v.Right? == v'.Right? && (!v.Right? && r.Err? ==> ErrorOf(v) == ErrorOf(v'))
             && (v.Right? ==> Similar(env, sys.db, sys'.db, hash, call.drawn, now))
    ensures Possible(env, sys', call, now, r)
  {
    var after, removed :| Outcomes.VerifyOutcome(env, sys, after, call.phone, call.candidate, call.device, call.drawn,
                                                 call.replies, now, r, removed);
    var hash, gate := env.hash(call.phone), call.replies.gate;
    var v' := Judge(env, hash, Outcomes.AccountOf(sys', hash), call.candidate, gate, now);
    var after' := sys';
    if ValidPhone(call.phone) && call.device != "" {
      var db' := if v'.Wrong? then sys'.db.(otp := BumpAttempts(sys'.db.otp, hash)) else sys'.db;
      if v'.Right? {
        db' := CompletionIsSimilar(env, sys.db, sys'.db, after.db, call.phone, call.device, call.drawn,
                                   call.replies.revoke, now, r, removed);
      }
      after' := Outcomes.Sys(db', after.counters,
                             if v'.Exhausted? && !gate.setLock.Refused?
                             then sys'.locks[Outcomes.LockKey(hash) := now + LOCKOUT] else sys'.locks);
    }
    assert Outcomes.VerifyOutcome(env, sys', after', call.phone, call.candidate, call.device, call.drawn, call.replies,
                                  now, r, removed);
  }

  lemma PrunedIsSimilar(env: Env, db: Db, db': Db, hash: string, drawn: Outcomes.Drawn, now: int)
    requires TextOk(env) && RowsOk(env, db) && Pruned(db, db', now) && ClockOk(now)
    requires drawn.sessionId !in db.sessions && drawn.loginSessionId !in db.sessions && hash in db'.otp
    ensures Similar(env, db, db', hash, drawn, now) && Similar(env, db', db, hash, drawn, now)
  {
    forall user, device, todo
      ensures Outcomes.LoginTodo(db'.sessions, user, device, Stamp(env, now), todo)
              <==> Outcomes.LoginTodo(db.sessions, user, device, Stamp(env, now), todo)
    {
      LoginUnaffected(env, db, db', user, device, now, todo);
    }
  }

  /** A whole verification, with identifiers not yet in use: removing any rows past their ttl leaves every success
      possible or impossible as it was, and every failure too unless an exhausted row of the phone was removed. */
  lemma VerificationUnaffected(env: Env, sys: Outcomes.Sys, db': Db, call: Outcomes.ServiceCall, now: int,
                               r: Result<Outcomes.VerifyResult>)
    requires TextOk(env) && RowsOk(env, sys.db) && Pruned(sys.db, db', now) && ClockOk(now) && call.Verify?
    requires call.drawn.sessionId !in sys.db.sessions && call.drawn.loginSessionId !in sys.db.sessions
    requires var hash := env.hash(call.phone);
             r.Ok? || !(hash in sys.db.otp && hash !in db'.otp && IsExhausted(sys.db.otp[hash]))
    ensures Possible(env, sys, call, now, r) <==> Possible(env, sys.(db := db'), call, now, r)
  {
    var sys', hash, gate := sys.(db := db'), env.hash(call.phone), call.replies.gate;
    VerifyUnaffected(env, sys.db, db', Outcomes.AccountOf(sys, hash), Outcomes.AccountOf(sys', hash), hash,
                     call.candidate, gate, now);
    if Judge(env, hash, Outcomes.AccountOf(sys', hash), call.candidate, gate, now).Right? {
      PrunedIsSimilar(env, sys.db, db', hash, call.drawn, now);
    }
    if Possible(env, sys, call, now, r) {
      PossibleIsSimilar(env, sys, sys', call, now, r);
    }
    if Possible(env, sys', call, now, r) {
      PossibleIsSimilar(env, sys', sys, call, now, r);
    }
  }

  // ---------------------------------------------------------------- over whole serial runs of one phone

  /** A removal at `now` takes the row away. */
  predicate TakesRow(t: Track, now: int) {
    t.acc.row.Some? && t.acc.row.value.ttl < SecondsOf(now)
  }

  /** Calls in order, none of them before `now`. */
  ghost predicate Follows(calls: seq<Call>, now: int) {
    InOrder(calls) && forall i :: 0 <= i < |calls| ==> now <= calls[i].now
  }

  /** Whether a verification after the calls `rest` passes its checks, when Redis answers. */
  ghost predicate Passes(env: Env, phone: string, t: Track, rest: seq<Call>, candidate: string, later: int) {
    Judge(env, env.hash(phone), ReplayFrom(env, phone, t, rest).acc, candidate, ANSWERED, later).Right?
  }

  /** Whatever follows, every verification passes from `t` exactly when it passes from `t'`. */
  ghost predicate Indistinguishable(env: Env, phone: string, t: Track, t': Track, now: int) {
    forall rest, candidate, later | Follows(rest + [Verify(later, candidate, true, ANSWERED)], now) ::
      Passes(env, phone, t, rest, candidate, later) <==> Passes(env, phone, t', rest, candidate, later)
  }

  /** Two accounts of one phone that differ at most in a row which is past its ttl and not exhausted. */
  ghost predicate Alike(env: Env, acc: Account, pruned: Account, now: int) {
    && acc.counter == pruned.counter && acc.lock == pruned.lock
    && (acc.row != pruned.row ==>
          && pruned.row.None? && acc.row.Some?
          && ExpiryOk(env, acc.row.value.expiresAt, acc.row.value.ttl)
          && acc.row.value.ttl < SecondsOf(now) && !IsExhausted(acc.row.value))
  }

  lemma AlikeLater(env: Env, acc: Account, pruned: Account, now: int, later: int)
    requires Alike(env, acc, pruned, now) && now <= later
    ensures Alike(env, acc, pruned, later)
  {
  }

  /** A call treats both accounts alike. */
  lemma CallKeepsAlike(env: Env, phone: string, t: Track, t': Track, call: Call)
    requires TextOk(env) && ClockOk(call.now) && Alike(env, t.acc, t'.acc, call.now)
    ensures Alike(env, Step(env, phone, t, call).acc, Step(env, phone, t', call).acc, call.now)
    ensures call.Verify? ==>
              (Judge(env, env.hash(phone), t.acc, call.candidate, call.replies, call.now).Right?
               <==> Judge(env, env.hash(phone), t'.acc, call.candidate, call.replies, call.now).Right?)
  {
    if t.acc.row != t'.acc.row {
      PastTtlIsExpired(env, t.acc.row.value.expiresAt, t.acc.row.value.ttl, call.now);
    }
  }

  lemma {:induction false} AlikeThrough(env: Env, phone: string, t: Track, t': Track, rest: seq<Call>, now: int)
    requires TextOk(env) && Follows(rest, now) && Alike(env, t.acc, t'.acc, now)
    ensures var later := if rest == [] then now else rest[|rest| - 1].now;
            Alike(env, ReplayFrom(env, phone, t, rest).acc, ReplayFrom(env, phone, t', rest).acc, later)
  {
    if rest != [] {
      var front, last := rest[..|rest| - 1], rest[|rest| - 1];
      AlikeThrough(env, phone, t, t', front, now);
      var before := if front == [] then now else front[|front| - 1].now;
      var u, u' := ReplayFrom(env, phone, t, front), ReplayFrom(env, phone, t', front);
      AlikeLater(env, u.acc, u'.acc, before, last.now);
      CallKeepsAlike(env, phone, u, u', last);
    }
  }

  lemma AlikeIsIndistinguishable(env: Env, phone: string, t: Track, t': Track, now: int)
    requires TextOk(env) && Alike(env, t.acc, t'.acc, now)
    ensures Indistinguishable(env, phone, t, t', now)
  {
    forall rest, candidate, later | Follows(rest + [Verify(later, candidate, true, ANSWERED)], now)
      ensures Passes(env, phone, t, rest, candidate, later) <==> Passes(env, phone, t', rest, candidate, later)
    {
      var call := Verify(later, candidate, true, ANSWERED);
      FollowsFront(rest, call, now);
      AlikeThrough(env, phone, t, t', rest, now);
      var before := if rest == [] then now else rest[|rest| - 1].now;
      var u, u' := ReplayFrom(env, phone, t, rest), ReplayFrom(env, phone, t', rest);
      AlikeLater(env, u.acc, u'.acc, before, later);
      CallKeepsAlike(env, phone, u, u', call);
    }
  }

  lemma FollowsFront(rest: seq<Call>, call: Call, now: int)
    requires Follows(rest + [call], now)
    ensures Follows(rest, now) && now <= call.now && ClockOk(call.now)
    ensures rest != [] ==> rest[|rest| - 1].now <= call.now
  {
    var all := rest + [call];
    assert all[|rest|] == call && forall i :: 0 <= i < |rest| ==> all[i] == rest[i];
  }

  /** The calls that tell an exhausted row from none: a verification, a request, and the right code. */
  function Probe(now: int, n: nat): seq<Call>
    requires n < Pow10(CODE_WIDTH)
  {
    [Verify(now, "", true, ANSWERED), Request(now, GenerateOtp(n))]
  }

  lemma ProbeSteps(env: Env, phone: string, t: Track, now: int, n: nat)
    requires n < Pow10(CODE_WIDTH)
    ensures ReplayFrom(env, phone, t, Probe(now, n))
            == Step(env, phone, Step(env, phone, t, Probe(now, n)[0]), Probe(now, n)[1])
  {
    var calls := Probe(now, n);
    assert calls[..1] == [calls[0]] && calls[..1][..0] == [];
    assert ReplayFrom(env, phone, t, calls[..1]) == Step(env, phone, t, calls[0]);
  }

  /** No window and no lockout is open any more at `now`. */
  ghost predicate IsQuiet(acc: Account, now: int) {
    (acc.counter.Some? ==> acc.counter.value.expireAt <= now) && (acc.lock.Some? ==> acc.lock.value <= now)
  }

  /** With an exhausted row in place the probe locks the phone, and the right code for the new OTP is refused. */
  lemma ProbeIsLockedOut(env: Env, phone: string, t: Track, now: int, n: nat)
    requires TextOk(env) && ClockOk(now) && n < Pow10(CODE_WIDTH) && IsQuiet(t.acc, now)
    requires TakesRow(t, now) && IsExhausted(t.acc.row.value)
    ensures Judge(env, env.hash(phone), ReplayFrom(env, phone, t, Probe(now, n)).acc, GenerateOtp(n), ANSWERED, now)
            == LockedOut
  {
    ProbeSteps(env, phone, t, now, n);
  }

  /** Without a row the same calls end with the right code accepted. */
  lemma ProbePasses(env: Env, phone: string, t: Track, now: int, n: nat)
    requires TextOk(env) && ClockOk(now) && n < Pow10(CODE_WIDTH) && IsQuiet(t.acc, now) && t.acc.row.None?
    ensures Judge(env, env.hash(phone), ReplayFrom(env, phone, t, Probe(now, n)).acc, GenerateOtp(n), ANSWERED, now)
            == Right
  {
    ProbeSteps(env, phone, t, now, n);
    ExpiryStamp(env, now, OTP_VALIDITY);
  }

  lemma ProbeFollows(now: int, later: int, n: nat)
    requires now <= later && ClockOk(later) && n < Pow10(CODE_WIDTH)
    ensures Follows(Probe(later, n) + [Verify(later, GenerateOtp(n), true, ANSWERED)], now)
  {
  }

  /** Removing an exhausted row flips a later verdict: once window and lockout have run out, a verification, an OTP
      request and the right code end in a lockout with the row and in success without it. */
  lemma RemovalFlipsVerdict(env: Env, phone: string, t: Track, now: int, later: int, n: nat)
    requires TextOk(env) && ClockOk(later) && now <= later && n < Pow10(CODE_WIDTH)
    requires IsQuiet(t.acc, later) && TakesRow(t, now) && IsExhausted(t.acc.row.value)
    ensures !Passes(env, phone, t, Probe(later, n), GenerateOtp(n), later)
    ensures Passes(env, phone, Step(env, phone, t, Remove(now)), Probe(later, n), GenerateOtp(n), later)
  {
    ProbeIsLockedOut(env, phone, t, later, n);
    ProbePasses(env, phone, Step(env, phone, t, Remove(now)), later, n);
  }

  /** Exactly when a removal can be observed. After any serial run, removing a row past its ttl changes whether some
      later verification passes if and only if the row is a pending one whose attempts are used up. */
  lemma RemovalUnobservableExactly(env: Env, phone: string, calls: seq<Call>, now: int)
    requires TextOk(env) && InOrder(calls) && (calls != [] ==> calls[|calls| - 1].now <= now)
    requires ClockOk(now) && ClockOk(now + LOCKOUT) && TakesRow(Replay(env, phone, calls), now)
    ensures var t := Replay(env, phone, calls);
            Indistinguishable(env, phone, t, Step(env, phone, t, Remove(now)), now) <==> !IsExhausted(t.acc.row.value)
  {
    var t := Replay(env, phone, calls);
    var t' := Step(env, phone, t, Remove(now));
    ReplayKeepsBounds(env, phone, calls);
    if IsExhausted(t.acc.row.value) {
      var later := now + LOCKOUT;
      RemovalFlipsVerdict(env, phone, t, now, later, 0);
      ProbeFollows(now, later, 0);
    } else {
      AlikeIsIndistinguishable(env, phone, t, t', now);
    }
  }

  /** An OTP request and `k` wrong guesses at the epoch. */
  function Guesses(code: string, k: nat): (calls: seq<Call>)
    ensures |calls| == k + 1
  {
    if k == 0 then [Request(0, code)] else Guesses(code, k - 1) + [Verify(0, "", true, ANSWERED)]
  }

  lemma {:induction false} GuessesInOrder(code: string, k: nat)
    ensures forall i :: 0 <= i < |Guesses(code, k)| ==> Guesses(code, k)[i].now == 0
  {
    if k > 0 {
      GuessesInOrder(code, k - 1);
    }
  }

  /** The account after the request and `k` guesses. */
  function GuessedAccount(env: Env, phone: string, code: string, k: nat): Account {
    Account(if k == 0 then None else Some(RateLimit.Counter(k, WINDOW)), None,
            Some(NewOtp(env, phone, code, 0).(attempts := k)))
  }

  lemma GuessIsWrong(env: Env, phone: string, code: string, k: nat)
    requires TextOk(env) && ClockOk(0) && code != "" && k < MAX_OTP_VERIFY_ATTEMPTS
    ensures Judge(env, env.hash(phone), GuessedAccount(env, phone, code, k), "", ANSWERED, 0).Wrong?
  {
    ExpiryStamp(env, 0, OTP_VALIDITY);
    var row := NewOtp(env, phone, code, 0);
    assert |row.mac.message| == |code| + |env.hash(phone)| + |row.expiresAt|;
  }

  lemma FirstGuess(env: Env, phone: string, code: string)
    ensures Replay(env, phone, Guesses(code, 0)).acc == GuessedAccount(env, phone, code, 0)
  {
    var calls := Guesses(code, 0);
    assert ReplayFrom(env, phone, START, calls[..0]) == START;
  }

  lemma NextGuess(env: Env, phone: string, code: string, k: nat)
    requires TextOk(env) && ClockOk(0) && code != "" && 0 < k <= MAX_OTP_VERIFY_ATTEMPTS
    requires Replay(env, phone, Guesses(code, k - 1)).acc == GuessedAccount(env, phone, code, k - 1)
    ensures Replay(env, phone, Guesses(code, k)).acc == GuessedAccount(env, phone, code, k)
  {
    var calls := Guesses(code, k);
    assert calls[..k] == Guesses(code, k - 1) && calls[k] == Verify(0, "", true, ANSWERED);
    GuessIsWrong(env, phone, code, k - 1);
  }

  lemma {:induction false} AfterGuesses(env: Env, phone: string, code: string, k: nat)
    requires TextOk(env) && ClockOk(0) && code != "" && k <= MAX_OTP_VERIFY_ATTEMPTS
    ensures Replay(env, phone, Guesses(code, k)).acc == GuessedAccount(env, phone, code, k)
  {
    if k == 0 {
      FirstGuess(env, phone, code);
    } else {
      AfterGuesses(env, phone, code, k - 1);
      NextGuess(env, phone, code, k);
    }
  }

  /** Such a row does arise: for every phone and code there is a serial run after which a removal can be observed. */
  lemma SomeRemovalIsObserved(env: Env, phone: string, code: string) returns (calls: seq<Call>, now: int)
    requires TextOk(env) && code != ""
    ensures InOrder(calls) && calls != [] && calls[|calls| - 1].now <= now && ClockOk(now)
    ensures var t := Replay(env, phone, calls);
            TakesRow(t, now) && !Indistinguishable(env, phone, t, Step(env, phone, t, Remove(now)), now)
  {
    var k := MAX_OTP_VERIFY_ATTEMPTS;
    calls, now := Guesses(code, k), (OTP_VALIDITY + 1) * NANOS;
    GuessesInOrder(code, k);
    AfterGuesses(env, phone, code, k);
    ExpiryStamp(env, 0, OTP_VALIDITY);
    ExpiryStamp(env, 0, OTP_VALIDITY + 1);
    RemovalUnobservableExactly(env, phone, calls, now);
  }

  // ---------------------------------------------------------------- runs with many removals

  function WithoutRemovals(calls: seq<Call>): seq<Call> {
    if calls == [] then []
    else
      var rest := WithoutRemovals(calls[..|calls| - 1]);
      if calls[|calls| - 1].Remove? then rest else rest + [calls[|calls| - 1]]
  }

  /** Call `i` of the run takes the row away. */
  ghost predicate RemovesAt(env: Env, phone: string, calls: seq<Call>, i: nat)
    requires i < |calls|
  {
    calls[i].Remove? && TakesRow(Replay(env, phone, calls[..i]), calls[i].now)
  }

  /** No removal of the run takes away a pending row whose attempts are used up. */
  ghost predicate SparesExhausted(env: Env, phone: string, calls: seq<Call>) {
    forall i: nat | i < |calls| && RemovesAt(env, phone, calls, i) ::
      !IsExhausted(Replay(env, phone, calls[..i]).acc.row.value)
  }

  lemma SparesPrefix(env: Env, phone: string, calls: seq<Call>, n: nat)
    requires SparesExhausted(env, phone, calls) && n <= |calls|
    ensures SparesExhausted(env, phone, calls[..n])
  {
    forall i: nat | i < n && RemovesAt(env, phone, calls[..n], i)
      ensures !IsExhausted(Replay(env, phone, calls[..n][..i]).acc.row.value)
    {
      assert calls[..n][..i] == calls[..i];
      assert RemovesAt(env, phone, calls, i);
    }
  }

  /** One more call of a run without its removals. */
  lemma ReplayWithoutNext(env: Env, phone: string, calls: seq<Call>)
    requires calls != []
    ensures var front, last := calls[..|calls| - 1], calls[|calls| - 1];
            var t := Replay(env, phone, WithoutRemovals(front));
            Replay(env, phone, WithoutRemovals(calls)) == if last.Remove? then t else Step(env, phone, t, last)
  {
    var rest, last := WithoutRemovals(calls[..|calls| - 1]), calls[|calls| - 1];
    if !last.Remove? {
      assert (rest + [last])[..|rest|] == rest;
    }
  }

  /** A removal in one of two runs, of a row that is not exhausted. */
  lemma RemovalKeepsAlike(env: Env, phone: string, t: Track, t': Track, now: int)
    requires Alike(env, t.acc, t'.acc, now)
    requires TakesRow(t', now) ==>
               && ExpiryOk(env, t'.acc.row.value.expiresAt, t'.acc.row.value.ttl) && !IsExhausted(t'.acc.row.value)
    ensures Alike(env, t.acc, Step(env, phone, t', Remove(now)).acc, now)
  {
  }

  lemma {:induction false} RunsStayAlike(env: Env, phone: string, calls: seq<Call>, now: int)
    requires TextOk(env) && InOrder(calls) && SparesExhausted(env, phone, calls)
    requires calls != [] ==> calls[|calls| - 1].now <= now
    ensures Alike(env, Replay(env, phone, WithoutRemovals(calls)).acc, Replay(env, phone, calls).acc, now)
  {
    if calls != [] {
      var n := |calls| - 1;
      var front, last := calls[..n], calls[n];
      var t, t' := Replay(env, phone, WithoutRemovals(front)), Replay(env, phone, front);
      SparesPrefix(env, phone, calls, n);
      RunsStayAlike(env, phone, front, last.now);
      ReplayWithoutNext(env, phone, calls);
      if last.Remove? {
        ReplayKeepsBounds(env, phone, front);
        assert TakesRow(t', last.now) ==> RemovesAt(env, phone, calls, n);
        RemovalKeepsAlike(env, phone, t, t', last.now);
      } else {
        CallKeepsAlike(env, phone, t, t', last);
      }
      AlikeLater(env, Replay(env, phone, WithoutRemovals(calls)).acc, Replay(env, phone, calls).acc, last.now, now);
    }
  }

  /** Runs with any number of removals, none of them of an exhausted row: whatever follows, every verification passes
      exactly when it would had nothing ever been removed. */
  lemma RemovalsUnobservable(env: Env, phone: string, calls: seq<Call>, now: int)
    requires TextOk(env) && InOrder(calls) && SparesExhausted(env, phone, calls)
    requires calls != [] ==> calls[|calls| - 1].now <= now
    ensures Indistinguishable(env, phone, Replay(env, phone, WithoutRemovals(calls)), Replay(env, phone, calls), now)
  {
    RunsStayAlike(env, phone, calls, now);
    AlikeIsIndistinguishable(env, phone, Replay(env, phone, WithoutRemovals(calls)), Replay(env, phone, calls), now);
  }

  /** And that condition is exact: a run spares exhausted rows if and only if none of its removals can be observed. */
  lemma SparesExhaustedExactly(env: Env, phone: string, calls: seq<Call>)
    requires TextOk(env) && InOrder(calls) && forall i :: 0 <= i < |calls| ==> ClockOk(calls[i].now + LOCKOUT)
    ensures SparesExhausted(env, phone, calls) <==>
            forall i: nat | i < |calls| && RemovesAt(env, phone, calls, i) ::
              var t := Replay(env, phone, calls[..i]);
              Indistinguishable(env, phone, t, Step(env, phone, t, calls[i]), calls[i].now)
  {
    forall i: nat | i < |calls| && RemovesAt(env, phone, calls, i)
      ensures var t := Replay(env, phone, calls[..i]);
              Indistinguishable(env, phone, t, Step(env, phone, t, calls[i]), calls[i].now)
              <==> !IsExhausted(t.acc.row.value)
    {
      RemovalUnobservableExactly(env, phone, calls[..i], calls[i].now);
    }
  }

  /** What the next call shows of a removal: it leaves the same lockout if and only if the row was consumed or had
      attempts left, or the call does not get as far as the row, or Redis refuses the lockout. */
  lemma RemovalKeepsLockoutExactly(env: Env, hash: string, acc: Account, candidate: string, replies: GateReplies,
                                   now: int)
    requires TextOk(env) && ClockOk(now) && acc.row.Some?
    requires ExpiryOk(env, acc.row.value.expiresAt, acc.row.value.ttl) && acc.row.value.ttl < SecondsOf(now)
    ensures var v := Judge(env, hash, acc, candidate, replies, now);
            var v' := Judge(env, hash, acc.(row := None), candidate, replies, now);
            Settle(acc, v, replies, now).lock == Settle(acc.(row := None), v', replies, now).lock
            <==> !IsExhausted(acc.row.value) || Gate(acc, replies, now).Some? || replies.setLock.Refused?
  {
  }
}
