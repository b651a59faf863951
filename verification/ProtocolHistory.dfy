/** What every run keeps, with no assumption on the order of steps, on repeated codes or on the
    freshness of the user index: well-formed rows, one user for each phone, the OTP balance, and the
    origin of every session. */
module ProtocolHistory {
  import opened Domain
  import opened Otp
  import opened Tables
  import opened Records
  import opened Protocol

  // ---------------------------------------------------------------- the invariant

  ghost predicate OtpRowsOk(env: Env, w: World) {
    forall h | h in w.db.otp :: OtpRowOk(env, w, h)
  }

  ghost predicate OtpRowOk(env: Env, w: World, h: string)
    requires h in w.db.otp
  {
    var row := w.db.otp[h];
    ExpiryOk(env, row.expiresAt, row.ttl) && IssuedPair(w.log, h, row.mac, row.expiresAt)
  }

  /** The history records the creation of this session for this user. */
  ghost predicate CreatedInLog(log: seq<Event>, s: Session) {
    exists i :: 0 <= i < |log| && log[i].Committed? && log[i].sessionId == s.id && log[i].userId == s.userId
                && log[i].deviceId == s.deviceId
  }

  ghost predicate SessionsOk(env: Env, w: World) {
    forall id | id in w.db.sessions :: SessionOk(env, w, id)
  }

  ghost predicate SessionOk(env: Env, w: World, id: string)
    requires id in w.db.sessions
  {
    var s := w.db.sessions[id];
    s.id == id && ExpiryOk(env, s.expiresAt, s.ttl) && s.userId in w.db.users && CreatedInLog(w.log, s)
  }

  ghost predicate LogOk(env: Env, w: World) {
    forall i | 0 <= i < |w.log| :: EventOk(env, w, i)
  }

  /** An issued digest is that of its code; a commit names a user of its phone, carries a candidate whose
      digest is the consumed one, and comes after the issue of that digest under the same hash. */
  ghost predicate EventOk(env: Env, w: World, i: nat)
    requires i < |w.log|
  {
    match w.log[i]
    case Issued(phone, hash, code, mac, expiresAt, _) =>
      ValidPhone(phone) && hash == env.hash(phone) && |expiresAt| == 20
      && mac == ComputeOtpMac(env.pepper, code, hash, expiresAt)
    case Committed(phone, hash, candidate, mac, expiresAt, userId, _, _, _, _) =>
      ValidPhone(phone) && hash == env.hash(phone)
      && mac == ComputeOtpMac(env.pepper, candidate, hash, expiresAt)
      && userId in w.db.users && w.db.users[userId].phone == phone
      && IssuedPair(w.log[..i], hash, mac, expiresAt)
    case Removed(_) => true
  }

  /** Every OTP issued under `h` was consumed, replaced after its expiry, removed, or is pending now. */
  ghost predicate Balanced(w: World, h: string) {
    Total(OtpsIssued(h), w.log)
    == Total(OtpsConsumed(h), w.log) + Total(PendingReplaced(h), w.log) + Total(PendingRemoved(h), w.log)
       + OneIf(HasPending(w.db.otp, h))
  }

  ghost predicate RegisteredOnce(w: World, phone: string) {
    Total(Registrations(phone), w.log) == OneIf(SentinelKey(phone) in w.db.users)
  }

  ghost predicate WorldOk(env: Env, w: World) {
    && TextOk(env)
    && ClockOk(w.now)
    && OtpRowsOk(env, w)
    && SessionsOk(env, w)
    && UsersOk(w.db.users)
    && LogOk(env, w)
    && (forall h :: Balanced(w, h))
    && (forall phone :: RegisteredOnce(w, phone))
  }

  /** The row that this context read had been issued by the time it was read. */
  ghost predicate ReadIssued(env: Env, w: World, c: Ctx) {
    c.readAt <= |w.log| && IssuedPair(w.log[..c.readAt], env.hash(c.phone), c.mac, c.expiresAt)
  }

  /** What a request knows once it has read the row; the digest was checked when `passed`. */
  ghost predicate CtxOk(env: Env, w: World, c: Ctx, passed: bool) {
    && ValidPhone(c.phone)
    && ReadIssued(env, w, c)
    && (passed ==> c.mac == ComputeOtpMac(env.pepper, c.candidate, env.hash(c.phone), c.expiresAt))
  }

  ghost predicate BuiltOk(env: Env, phone: string, code: string, row: OtpRow) {
    && ValidPhone(phone) && ExpiryOk(env, row.expiresAt, row.ttl) && row.status.Pending?
    && row.mac == ComputeOtpMac(env.pepper, code, env.hash(phone), row.expiresAt)
  }

  ghost predicate HoldsUser(w: World, c: Ctx, user: string) {
    user in w.db.users && w.db.users[user].phone == c.phone
  }

  ghost predicate ProcOk(env: Env, w: World, p: Proc) {
    match p
    case Requesting(phone) => ValidPhone(phone)
    case Built(phone, code, row) => BuiltOk(env, phone, code, row)
    case Putting(phone, code, row, at) => BuiltOk(env, phone, code, row) && at <= w.now && ClockOk(at)
    case Verifying(phone, _, _) => ValidPhone(phone)
    case Checking(c, row) => CtxOk(env, w, c, false) && row.mac == c.mac && row.expiresAt == c.expiresAt
    case Counting(phone) => ValidPhone(phone)
    case Finding(c, _) => CtxOk(env, w, c, true)
    case Loading(c, key, _) => CtxOk(env, w, c, true) && HoldsUser(w, c, key)
    case NewUser(c) => CtxOk(env, w, c, true)
    case Registering(c, r) =>
      && CtxOk(env, w, c, true)
      && r.hash == env.hash(c.phone) && r.mac == c.mac && r.expiresAt == c.expiresAt && r.phone == c.phone
      && IsUuid(r.userId) && r.session.userId == r.userId && r.session.deviceId == c.device
      && ExpiryOk(env, r.session.expiresAt, r.session.ttl)
    case Listing(c, user) => CtxOk(env, w, c, true) && HoldsUser(w, c, user)
    case Querying(c, user, at) => CtxOk(env, w, c, true) && HoldsUser(w, c, user) && at <= w.now && ClockOk(at)
    case Evicting(c, user, _, _) => CtxOk(env, w, c, true) && HoldsUser(w, c, user)
    case LoggingIn(c, user, _, l) =>
      && CtxOk(env, w, c, true) && HoldsUser(w, c, user)
      && l.hash == env.hash(c.phone) && l.mac == c.mac && l.expiresAt == c.expiresAt
      && l.session.userId == user && l.session.deviceId == c.device
      && ExpiryOk(env, l.session.expiresAt, l.session.ttl)
    case Finished => true
  }

  ghost predicate StateOk(env: Env, s: State) {
    WorldOk(env, s.w) && forall q | q in s.procs :: ProcOk(env, s.w, s.procs[q])
  }

  // ---------------------------------------------------------------- growth

  /** The clock moves on, the history is extended, and user rows stay. */
  ghost predicate Grows(w: World, w': World) {
    && w.now <= w'.now
    && w.log <= w'.log
    && forall k | k in w.db.users :: k in w'.db.users && w'.db.users[k] == w.db.users[k]
  }

  lemma IssuedPairGrows(log: seq<Event>, log': seq<Event>, hash: string, mac: Mac, expiresAt: string)
    requires log <= log' && IssuedPair(log, hash, mac, expiresAt)
    ensures IssuedPair(log', hash, mac, expiresAt)
  {
    var i :| IssuedAt(log, i, hash, mac, expiresAt);
    assert IssuedAt(log', i, hash, mac, expiresAt);
  }

  lemma CreatedInLogGrows(log: seq<Event>, log': seq<Event>, s: Session)
    requires log <= log' && CreatedInLog(log, s)
    ensures CreatedInLog(log', s)
  {
    var i :| 0 <= i < |log| && log[i].Committed? && log[i].sessionId == s.id && log[i].userId == s.userId
             && log[i].deviceId == s.deviceId;
    assert log'[i] == log[i];
  }

  lemma CtxGrows(env: Env, w: World, w': World, c: Ctx, passed: bool)
    requires CtxOk(env, w, c, passed) && Grows(w, w')
    ensures CtxOk(env, w', c, passed)
  {
    assert w'.log[..c.readAt] == w.log[..c.readAt];
  }

  /** A waiting request is not disturbed by the steps of others. */
  lemma ProcGrows(env: Env, w: World, w': World, p: Proc)
    requires ProcOk(env, w, p) && Grows(w, w')
    ensures ProcOk(env, w', p)
  {
    match p
    case Checking(c, _) => CtxGrows(env, w, w', c, false);
    case Finding(c, _) => CtxGrows(env, w, w', c, true);
    case Loading(c, _, _) => CtxGrows(env, w, w', c, true);
    case NewUser(c) => CtxGrows(env, w, w', c, true);
    case Registering(c, _) => CtxGrows(env, w, w', c, true);
    case Listing(c, _) => CtxGrows(env, w, w', c, true);
    case Querying(c, _, _) => CtxGrows(env, w, w', c, true);
    case Evicting(c, _, _, _) => CtxGrows(env, w, w', c, true);
    case LoggingIn(c, _, _, _) => CtxGrows(env, w, w', c, true);
    case _ =>
  }

  lemma LogGrows(env: Env, w: World, w': World)
    requires LogOk(env, w) && Grows(w, w')
    requires forall i | |w.log| <= i < |w'.log| :: EventOk(env, w', i)
    ensures LogOk(env, w')
  {
    forall i | 0 <= i < |w'.log|
      ensures EventOk(env, w', i)
    {
      if i < |w.log| {
        assert EventOk(env, w, i);
        assert w'.log[..i] == w.log[..i];
      }
    }
  }

  lemma SessionsGrow(env: Env, w: World, w': World)
    requires SessionsOk(env, w) && Grows(w, w')
    requires forall id | id in w'.db.sessions ::
               SessionOk(env, w', id) || (id in w.db.sessions && w'.db.sessions[id] == w.db.sessions[id])
    ensures SessionsOk(env, w')
  {
    forall id | id in w'.db.sessions
      ensures SessionOk(env, w', id)
    {
      if id in w.db.sessions && w'.db.sessions[id] == w.db.sessions[id] {
        assert SessionOk(env, w, id);
        CreatedInLogGrows(w.log, w'.log, w.db.sessions[id]);
      }
    }
  }

  lemma OtpRowsGrow(env: Env, w: World, w': World)
    requires OtpRowsOk(env, w) && Grows(w, w')
    requires forall h | h in w'.db.otp ::
               OtpRowOk(env, w', h) ||
               (&& h in w.db.otp
                && w'.db.otp[h].(status := w.db.otp[h].status, attempts := w.db.otp[h].attempts) == w.db.otp[h])
    ensures OtpRowsOk(env, w')
  {
    forall h | h in w'.db.otp
      ensures OtpRowOk(env, w', h)
    {
      if h in w.db.otp && w'.db.otp[h].(status := w.db.otp[h].status, attempts := w.db.otp[h].attempts) == w.db.otp[h] {
        assert OtpRowOk(env, w, h);
        IssuedPairGrows(w.log, w'.log, h, w.db.otp[h].mac, w.db.otp[h].expiresAt);
      }
    }
  }

  // ---------------------------------------------------------------- one effect at a time

  lemma TalliesAppend(log: seq<Event>, e: Event, h: string)
    ensures Total(OtpsIssued(h), log + [e]) == Total(OtpsIssued(h), log) + OneIf(e.Issued? && e.hash == h)
    ensures Total(OtpsConsumed(h), log + [e]) == Total(OtpsConsumed(h), log) + OneIf(CommitsOn(e, h))
    ensures Total(PendingReplaced(h), log + [e])
            == Total(PendingReplaced(h), log) + OneIf(e.Issued? && e.hash == h && e.replacedPending)
    ensures Total(PendingRemoved(h), log + [e]) == Total(PendingRemoved(h), log) + OneIf(e.Removed? && e.hash == h)
  {
    TotalAppend(OtpsIssued(h), log, e);
    TotalAppend(OtpsConsumed(h), log, e);
    TotalAppend(PendingReplaced(h), log, e);
    TotalAppend(PendingRemoved(h), log, e);
  }

  lemma SameTallies(w: World, w': World)
    requires (forall h :: Balanced(w, h)) && (forall phone :: RegisteredOnce(w, phone))
    requires w'.log == w.log && w'.db.users == w.db.users
    requires forall h :: HasPending(w'.db.otp, h) == HasPending(w.db.otp, h)
    ensures (forall h :: Balanced(w', h)) && (forall phone :: RegisteredOnce(w', phone))
  {
    forall h
      ensures Balanced(w', h)
    {
      assert Balanced(w, h);
    }
    forall phone
      ensures RegisteredOnce(w', phone)
    {
      assert RegisteredOnce(w, phone);
    }
  }

  lemma PutKeepsWorld(env: Env, w: World, phone: string, code: string, row: OtpRow, at: int)
    requires WorldOk(env, w) && BuiltOk(env, phone, code, row)
    ensures var w' := PutOtp(env, w, phone, env.hash(phone), code, row, at); Grows(w, w') && WorldOk(env, w')
  {
    var hash := env.hash(phone);
    var w' := PutOtp(env, w, phone, hash, code, row, at);
    if w' != w {
      var e := w'.log[|w.log|];
      assert IssuedAt(w'.log, |w.log|, hash, row.mac, row.expiresAt);
      LogGrows(env, w, w');
      OtpRowsGrow(env, w, w');
      SessionsGrow(env, w, w');
      forall h
        ensures Balanced(w', h)
      {
        assert Balanced(w, h);
        TalliesAppend(w.log, e, h);
      }
      RegistrationsUnchanged(w, w', e);
    }
  }

  /** A row change that keeps the pair, the expiry and the pending status is invisible to the invariant. */
  lemma BumpKeepsWorld(env: Env, w: World, hash: string)
    requires WorldOk(env, w)
    ensures var w' := w.(db := w.db.(otp := BumpAttempts(w.db.otp, hash))); Grows(w, w') && WorldOk(env, w')
  {
    var w' := w.(db := w.db.(otp := BumpAttempts(w.db.otp, hash)));
    LogGrows(env, w, w');
    OtpRowsGrow(env, w, w');
    SessionsGrow(env, w, w');
    SameTallies(w, w');
  }

  lemma CommitTallies(w: World, w': World, e: Event)
    requires forall h :: Balanced(w, h)
    requires w'.log == w.log + [e] && e.Committed? && HasPending(w.db.otp, e.hash)
    requires w'.db.otp == ConsumeOtp(w.db.otp, e.hash)
    ensures forall h :: Balanced(w', h)
  {
    forall h
      ensures Balanced(w', h)
    {
      assert Balanced(w, h);
      TalliesAppend(w.log, e, h);
    }
  }

  lemma CommitEventOk(env: Env, w: World, w': World, c: Ctx, e: Event)
    requires CtxOk(env, w, c, true) && w'.log == w.log + [e]
    requires e.Committed? && e.phone == c.phone && e.hash == env.hash(c.phone) && e.candidate == c.candidate
             && e.mac == c.mac && e.expiresAt == c.expiresAt
    requires e.userId in w'.db.users && w'.db.users[e.userId].phone == c.phone
    ensures EventOk(env, w', |w.log|)
  {
    assert w'.log[..|w.log|] == w.log;
    IssuedPairGrows(w.log[..c.readAt], w.log, e.hash, e.mac, e.expiresAt);
  }

  /** The sentinel row and the registration event appear together. */
  lemma RegistrationCounted(w: World, c: Ctx, r: Registration)
    requires forall phone :: RegisteredOnce(w, phone)
    requires MayRegister(w.db, r) && IsUuid(r.userId) && r.phone == c.phone
    ensures forall phone :: RegisteredOnce(CommitRegistration(w, c, r), phone)
  {
    var w' := CommitRegistration(w, c, r);
    var e := w'.log[|w.log|];
    forall phone
      ensures RegisteredOnce(w', phone)
    {
      assert RegisteredOnce(w, phone);
      TotalAppend(Registrations(phone), w.log, e);
      SentinelKeyIsNoUuid(phone);
      if SentinelKey(phone) == SentinelKey(r.phone) {
        SentinelKeyInjective(phone, r.phone);
      }
    }
  }

  /** The rows a commit leaves: the consumed OTP row keeps its pair, and the new session is recorded. */
  lemma CommitKeepsRows(env: Env, w: World, w': World, e: Event, session: Session)
    requires OtpRowsOk(env, w) && SessionsOk(env, w) && Grows(w, w')
    requires w'.log == w.log + [e] && e.Committed? && HasPending(w.db.otp, e.hash)
    requires e.sessionId == session.id && e.userId == session.userId && e.deviceId == session.deviceId
    requires w'.db.otp == ConsumeOtp(w.db.otp, e.hash) && w'.db.sessions == w.db.sessions[session.id := session]
    requires ExpiryOk(env, session.expiresAt, session.ttl) && session.userId in w'.db.users
    ensures OtpRowsOk(env, w') && SessionsOk(env, w')
  {
    OtpRowsGrow(env, w, w');
    assert w'.log[|w.log|] == e;
    assert CreatedInLog(w'.log, session);
    SessionsGrow(env, w, w');
  }

  lemma RegistrationKeepsWorld(env: Env, w: World, c: Ctx, r: Registration)
    requires WorldOk(env, w) && ProcOk(env, w, Registering(c, r))
    ensures var w' := CommitRegistration(w, c, r); Grows(w, w') && WorldOk(env, w')
  {
    var w' := CommitRegistration(w, c, r);
    if MayRegister(w.db, r) {
      var e := w'.log[|w.log|];
      RegistrationKeepsUsers(w.db, r);
      CommitEventOk(env, w, w', c, e);
      LogGrows(env, w, w');
      CommitKeepsRows(env, w, w', e, r.session);
      CommitTallies(w, w', e);
      RegistrationCounted(w, c, r);
    }
  }

  lemma LoginKeepsWorld(env: Env, w: World, c: Ctx, user: string, keep: set<string>, l: Login)
    requires WorldOk(env, w) && ProcOk(env, w, LoggingIn(c, user, keep, l))
    ensures var w' := CommitLogin(w, c, l); Grows(w, w') && WorldOk(env, w')
  {
    var w' := CommitLogin(w, c, l);
    if MayLogin(w.db, l) {
      var e := w'.log[|w.log|];
      CommitEventOk(env, w, w', c, e);
      LogGrows(env, w, w');
      CommitKeepsRows(env, w, w', e, l.session);
      CommitTallies(w, w', e);
      RegistrationsUnchanged(w, w', e);
    }
  }

  lemma RegistrationsUnchanged(w: World, w': World, e: Event)
    requires forall phone :: RegisteredOnce(w, phone)
    requires w'.db.users == w.db.users && w'.log == w.log + [e] && !(e.Committed? && e.isNew)
    ensures forall phone :: RegisteredOnce(w', phone)
  {
    forall phone
      ensures RegisteredOnce(w', phone)
    {
      assert RegisteredOnce(w, phone);
      TotalAppend(Registrations(phone), w.log, e);
    }
  }

  /** Steps that touch only sessions and the clock. */
  lemma SessionChangeKeepsWorld(env: Env, w: World, w': World)
    requires WorldOk(env, w) && ClockOk(w'.now) && w.now <= w'.now
    requires w'.log == w.log && w'.db.otp == w.db.otp && w'.db.users == w.db.users
    requires forall id | id in w'.db.sessions ::
               SessionOk(env, w', id) || (id in w.db.sessions && w'.db.sessions[id] == w.db.sessions[id])
    ensures Grows(w, w') && WorldOk(env, w')
  {
    LogGrows(env, w, w');
    OtpRowsGrow(env, w, w');
    SessionsGrow(env, w, w');
    SameTallies(w, w');
  }

  lemma RefreshKeepsWorld(env: Env, w: World, id: string, token: string)
    requires WorldOk(env, w) && id in w.db.sessions
    ensures var w' := RefreshSession(env, w, id, token); Grows(w, w') && WorldOk(env, w')
  {
    var w' := RefreshSession(env, w, id, token);
    ExpiryStamp(env, w.now, REFRESH_TOKEN_LIFETIME);
    assert SessionOk(env, w, id);
    var i :| 0 <= i < |w.log| && w.log[i].Committed? && w.log[i].sessionId == id
             && w.log[i].userId == w.db.sessions[id].userId && w.log[i].deviceId == w.db.sessions[id].deviceId;
    assert CreatedInLog(w'.log, w'.db.sessions[id]);
    SessionChangeKeepsWorld(env, w, w');
  }

  lemma RemovalTallies(w: World, hash: string)
    requires forall h :: Balanced(w, h)
    requires HasPending(w.db.otp, hash)
    ensures forall h :: Balanced(RemoveOtp(w, hash), h)
  {
    var w' := RemoveOtp(w, hash);
    forall h
      ensures Balanced(w', h)
    {
      assert Balanced(w, h);
      TalliesAppend(w.log, Removed(hash), h);
    }
  }

  lemma RemoveOtpKeepsWorld(env: Env, w: World, hash: string)
    requires WorldOk(env, w)
    ensures var w' := RemoveOtp(w, hash); Grows(w, w') && WorldOk(env, w')
  {
    var w' := RemoveOtp(w, hash);
    LogGrows(env, w, w');
    OtpRowsGrow(env, w, w');
    SessionsGrow(env, w, w');
    if HasPending(w.db.otp, hash) {
      RemovalTallies(w, hash);
      RegistrationsUnchanged(w, w', Removed(hash));
    } else {
      SameTallies(w, w');
    }
  }

  // ---------------------------------------------------------------- one step

  lemma GrowsReflexive(w: World)
    ensures Grows(w, w)
  {
  }

  lemma MoveKeepsWorld(env: Env, w: World, p: Proc, a: Action)
    requires WorldOk(env, w) && ProcOk(env, w, p) && CanMove(env, w, p, a)
    ensures Grows(w, MoveWorld(env, w, p, a)) && WorldOk(env, MoveWorld(env, w, p, a))
  {
    if a.Quit? || !Writes(p) {
      ReadOnlyMove(env, w, p, a);
      GrowsReflexive(w);
    } else if p.Putting? {
      PutKeepsWorld(env, w, p.phone, p.code, p.row, p.at);
    } else if p.Counting? {
      BumpKeepsWorld(env, w, env.hash(p.phone));
    } else if p.Registering? {
      RegistrationKeepsWorld(env, w, p.c, p.r);
    } else if p.LoggingIn? {
      LoginKeepsWorld(env, w, p.c, p.user, p.keep, p.l);
    } else {
      SessionChangeKeepsWorld(env, w, MoveWorld(env, w, p, a));
    }
  }

  /** Reading the OTP row: it was issued. */
  lemma ReadingKeepsProc(env: Env, w: World, p: Proc, a: Action)
    requires OtpRowsOk(env, w) && ProcOk(env, w, p) && p.Verifying?
    ensures ProcOk(env, w, MoveProc(env, w, p, a))
  {
    if env.hash(p.phone) in w.db.otp {
      assert OtpRowOk(env, w, env.hash(p.phone));
      assert w.log[..|w.log|] == w.log;
    }
  }

  lemma ReadKeepsProc(env: Env, w: World, p: Proc, a: Action)
    requires WorldOk(env, w) && ProcOk(env, w, p) && CanMove(env, w, p, a) && !Writes(p)
    ensures ProcOk(env, w, MoveProc(env, w, p, a))
  {
    if p.Verifying? {
      ReadingKeepsProc(env, w, p, a);
    } else {
      ExpiryStamp(env, w.now, OTP_VALIDITY);
      ExpiryStamp(env, w.now, REFRESH_TOKEN_LIFETIME);
    }
  }

  lemma MoveKeepsProc(env: Env, w: World, p: Proc, a: Action)
    requires WorldOk(env, w) && ProcOk(env, w, p) && CanMove(env, w, p, a)
    ensures ProcOk(env, MoveWorld(env, w, p, a), MoveProc(env, w, p, a))
  {
    if !Writes(p) {
      ReadOnlyMove(env, w, p, a);
      ReadKeepsProc(env, w, p, a);
    } else if p.Evicting? || p.Registering? {
      MoveKeepsWorld(env, w, p, a);
      CtxGrows(env, w, MoveWorld(env, w, p, a), p.c, true);
      ExpiryStamp(env, w.now, REFRESH_TOKEN_LIFETIME);
    }
  }

  lemma StepKeepsWorld(env: Env, s: State, step: Step)
    requires StateOk(env, s) && Enabled(env, s, step)
    ensures Grows(s.w, NextWorld(env, s, step)) && WorldOk(env, NextWorld(env, s, step))
  {
    match step
    case Arrive(_, _) =>
    case Move(q, a) => MoveKeepsWorld(env, s.w, s.procs[q], a);
    case Logout(id) => SessionChangeKeepsWorld(env, s.w, DeleteSession(s.w, id));
    case Refresh(id, token) => RefreshKeepsWorld(env, s.w, id, token);
    case Tick(t) => SessionChangeKeepsWorld(env, s.w, s.w.(now := t));
    case ExpireOtp(h) => RemoveOtpKeepsWorld(env, s.w, h);
    case ExpireSession(id) => SessionChangeKeepsWorld(env, s.w, DeleteSession(s.w, id));
  }

  lemma StepKeepsState(env: Env, s: State, step: Step)
    requires StateOk(env, s) && Enabled(env, s, step)
    ensures StateOk(env, Next(env, s, step)) && Grows(s.w, Next(env, s, step).w)
  {
    StepKeepsWorld(env, s, step);
    var s' := Next(env, s, step);
    forall q | q in s'.procs
      ensures ProcOk(env, s'.w, s'.procs[q])
    {
      if step.Move? && step.q == q {
        MoveKeepsProc(env, s.w, s.procs[q], step.a);
      } else if q in s.procs && s'.procs[q] == s.procs[q] {
        ProcGrows(env, s.w, s'.w, s.procs[q]);
      }
    }
  }

  lemma {:induction false} RunKeepsState(env: Env, states: seq<State>, steps: seq<Step>, n: nat)
    requires TextOk(env) && IsRun(env, states, steps) && n < |states|
    ensures StateOk(env, states[n])
    ensures n > 0 ==> Grows(states[n - 1].w, states[n].w)
  {
    if n == 0 {
      var w := states[0].w;
      assert forall h :: Balanced(w, h);
      assert forall p :: RegisteredOnce(w, p);
    } else {
      RunKeepsState(env, states, steps, n - 1);
      RunStep(env, states, steps, n - 1);
      StepKeepsState(env, states[n - 1], steps[n - 1]);
    }
  }

  lemma GrowsTransitive(u: World, v: World, w: World)
    requires Grows(u, v) && Grows(v, w)
    ensures Grows(u, w)
  {
  }

  lemma {:induction false} RunGrows(env: Env, states: seq<State>, steps: seq<Step>, m: nat, n: nat)
    requires TextOk(env) && IsRun(env, states, steps) && m <= n < |states|
    ensures Grows(states[m].w, states[n].w)
  {
    if m < n {
      RunGrows(env, states, steps, m, n - 1);
      RunKeepsState(env, states, steps, n);
      GrowsTransitive(states[m].w, states[n - 1].w, states[n].w);
    }
  }
}
