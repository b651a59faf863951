/** The OTP row as an optimistic lock, and the session limit it protects.

Listing, evicting and creating sessions are separate steps that other logins may interleave with. The
commit succeeds only while the OTP row is still the pending one that was read, and a session for the same
phone can only appear by consuming that row; so the list a login read is still complete when it commits.
*/
module ProtocolLimit {
  import opened Domain
  import opened Rfc3339
  import opened Tables
  import opened Records
  import opened Eviction
  import opened Protocol
  import opened ProtocolHistory

  // ---------------------------------------------------------------- definitions

  /** The sessions of `user` that have not expired. */
  function ActiveIds(w: World, user: string): set<string> {
    set id | id in w.db.sessions && w.db.sessions[id].userId == user && w.now < w.db.sessions[id].ttl * NANOS
  }

  ghost predicate LimitOk(w: World) {
    forall user :: |ActiveIds(w, user)| <= MAX_SESSIONS_PER_USER
  }

  ghost predicate DevicesDistinct(w: World, user: string) {
    forall id, id' | id in ActiveIds(w, user) && id' in ActiveIds(w, user)
                     && w.db.sessions[id].deviceId == w.db.sessions[id'].deviceId :: id == id'
  }

  ghost predicate DevicesOk(w: World) {
    forall user :: DevicesDistinct(w, user)
  }

  /** The row that this verification read is still there, still pending. */
  predicate Live(env: Env, w: World, c: Ctx) {
    OtpMatches(w.db.otp, env.hash(c.phone), c.expiresAt, c.mac)
  }

  ghost predicate NoCommitSince(log: seq<Event>, from: nat, hash: string) {
    forall i | from <= i < |log| :: !CommitsOn(log[i], hash)
  }

  ghost predicate LockOk(env: Env, w: World, c: Ctx) {
    Live(env, w, c) ==> NoCommitSince(w.log, c.readAt, env.hash(c.phone))
  }

  /** Unless a session was created since the read, the user's active sessions are those still to delete and
      those to keep, and the kept ones are on other devices. */
  ghost predicate Covered(env: Env, w: World, c: Ctx, user: string, keep: set<string>, todo: seq<string>) {
    NoCommitSince(w.log, c.readAt, env.hash(c.phone)) ==>
      forall id | id in ActiveIds(w, user) :: id in todo || (id in keep && w.db.sessions[id].deviceId != c.device)
  }

  ghost predicate ProcLocked(env: Env, w: World, p: Proc) {
    match p
    case Checking(c, _) => LockOk(env, w, c)
    case Finding(c, _) => LockOk(env, w, c)
    case Loading(c, _, _) => LockOk(env, w, c)
    case NewUser(c) => LockOk(env, w, c)
    case Registering(c, _) => LockOk(env, w, c)
    case Listing(c, _) => LockOk(env, w, c)
    case Querying(c, _, _) => LockOk(env, w, c)
    case Evicting(c, user, keep, todo) =>
      LockOk(env, w, c) && |keep| < MAX_SESSIONS_PER_USER && Covered(env, w, c, user, keep, todo)
    case LoggingIn(c, user, keep, _) =>
      LockOk(env, w, c) && |keep| < MAX_SESSIONS_PER_USER && Covered(env, w, c, user, keep, [])
    case _ => true
  }

  ghost predicate LimitState(env: Env, s: State) {
    && StateOk(env, s)
    && LimitOk(s.w) && DevicesOk(s.w)
    && forall q | q in s.procs :: ProcLocked(env, s.w, s.procs[q])
  }

  /** If the OTP put succeeds, no session was created for that phone since its pair was issued before, if it was. */
  ghost predicate PutsUnspentPair(env: Env, w: World, p: Proc)
    requires p.Putting?
  {
    MayCreateOtp(w.db.otp, env.hash(p.phone), Stamp(env, p.at)) ==>
      !CommitSinceIssue(w.log, env.hash(p.phone), p.row.mac, p.row.expiresAt)
  }

  /** The two assumptions: a pair of digest and expiry is not issued again for a phone after a session was created
      for it, and no refresh falls on the very instant at which its session expires. */
  ghost predicate Benign(env: Env, s: State, step: Step) {
    match step
    case Move(q, a) =>
      q in s.procs && s.procs[q].Putting? && !a.Quit? ==> PutsUnspentPair(env, s.w, s.procs[q])
    case Refresh(id, _) => id in s.w.db.sessions ==> !ExpiresNow(env, s.w.db.sessions[id].expiresAt, s.w.now)
    case _ => true
  }

  ghost predicate IsBenignRun(env: Env, states: seq<State>, steps: seq<Step>) {
    && IsRun(env, states, steps)
    && forall i {:trigger Benign(env, states[i], steps[i])} :: 0 <= i < |steps| ==> Benign(env, states[i], steps[i])
  }

  // ---------------------------------------------------------------- steps of others

  /** `user` gains no active session, and the remaining ones keep their device. */
  ghost predicate Shrinks(w: World, w': World, user: string) {
    forall id | id in ActiveIds(w', user) ::
      id in ActiveIds(w, user) && w'.db.sessions[id].deviceId == w.db.sessions[id].deviceId
  }

  /** The step keeps every lock, and users of a phone on which it commits nothing gain no session. */
  ghost predicate Quiet(env: Env, w: World, w': World) {
    && (forall c: Ctx | ReadIssued(env, w, c) && LockOk(env, w, c) :: LockOk(env, w', c))
    && (forall c: Ctx, user: string | NoCommitSince(w'.log, |w.log|, env.hash(c.phone)) && HoldsUser(w, c, user) ::
          Shrinks(w, w', user))
  }

  lemma CoverKept(env: Env, w: World, w': World, c: Ctx, user: string, keep: set<string>, todo: seq<string>)
    requires Grows(w, w') && Quiet(env, w, w') && CtxOk(env, w, c, true) && HoldsUser(w, c, user)
    requires Covered(env, w, c, user, keep, todo)
    ensures Covered(env, w', c, user, keep, todo)
  {
    var h := env.hash(c.phone);
    if NoCommitSince(w'.log, c.readAt, h) {
      forall i | c.readAt <= i < |w.log|
        ensures !CommitsOn(w.log[i], h)
      {
        assert w'.log[i] == w.log[i];
      }
      assert NoCommitSince(w'.log, |w.log|, h);
      assert Shrinks(w, w', user);
    }
  }

  lemma QuietKeepsProc(env: Env, w: World, w': World, p: Proc)
    requires Grows(w, w') && Quiet(env, w, w') && ProcOk(env, w, p) && ProcLocked(env, w, p)
    ensures ProcLocked(env, w', p)
  {
    match p
    case Evicting(c, user, keep, todo) => CoverKept(env, w, w', c, user, keep, todo);
    case LoggingIn(c, user, keep, _) => CoverKept(env, w, w', c, user, keep, []);
    case _ =>
  }

  /** A put of a pair on which nothing was committed since it was issued keeps every lock. */
  lemma PutKeepsLock(env: Env, w: World, phone: string, code: string, row: OtpRow, at: int, c: Ctx)
    requires !CommitSinceIssue(w.log, env.hash(phone), row.mac, row.expiresAt)
    requires ReadIssued(env, w, c) && LockOk(env, w, c)
    ensures LockOk(env, PutOtp(env, w, phone, env.hash(phone), code, row, at), c)
  {
    var hash, w' := env.hash(c.phone), PutOtp(env, w, phone, env.hash(phone), code, row, at);
    if Live(env, w', c) && w' != w {
      var i :| IssuedAt(w.log[..c.readAt], i, hash, c.mac, c.expiresAt);
      assert IssuedAt(w.log, i, hash, c.mac, c.expiresAt);
      forall j | c.readAt <= j < |w'.log|
        ensures !CommitsOn(w'.log[j], hash)
      {
        if j < |w.log| {
          assert w'.log[j] == w.log[j];
        }
      }
    }
  }

  lemma PutIsQuiet(env: Env, w: World, phone: string, code: string, row: OtpRow, at: int)
    requires PutsUnspentPair(env, w, Putting(phone, code, row, at))
    ensures Quiet(env, w, PutOtp(env, w, phone, env.hash(phone), code, row, at))
  {
    var w' := PutOtp(env, w, phone, env.hash(phone), code, row, at);
    forall c: Ctx | ReadIssued(env, w, c) && LockOk(env, w, c)
      ensures LockOk(env, w', c)
    {
      if w' != w {
        PutKeepsLock(env, w, phone, code, row, at, c);
      }
    }
  }

  /** The assumption on pairs is exact: a put that succeeds keeps the lock of every reader of an issued row if and
      only if no session was created for the phone since the pair was issued before. */
  lemma PutKeepsLocksExactly(env: Env, w: World, phone: string, code: string, row: OtpRow, at: int)
    requires MayCreateOtp(w.db.otp, env.hash(phone), Stamp(env, at)) && row.status.Pending?
    requires forall c: Ctx | ReadIssued(env, w, c) :: LockOk(env, w, c)
    ensures var w' := PutOtp(env, w, phone, env.hash(phone), code, row, at);
            (forall c: Ctx | ReadIssued(env, w, c) :: LockOk(env, w', c))
            <==> !CommitSinceIssue(w.log, env.hash(phone), row.mac, row.expiresAt)
  {
    var hash, w' := env.hash(phone), PutOtp(env, w, phone, env.hash(phone), code, row, at);
    if CommitSinceIssue(w.log, hash, row.mac, row.expiresAt) {
      var i, j :| i < j < |w.log| && IssuedAt(w.log, i, hash, row.mac, row.expiresAt) && CommitsOn(w.log[j], hash);
      var c := Ctx(phone, "", "", row.mac, row.expiresAt, i + 1);
      assert IssuedAt(w.log[..i + 1], i, hash, row.mac, row.expiresAt);
      assert ReadIssued(env, w, c) && w'.log[j] == w.log[j];
      assert !LockOk(env, w', c);
    } else {
      PutIsQuiet(env, w, phone, code, row, at);
    }
  }

  lemma CommitIsQuiet(env: Env, w: World, w': World, c: Ctx, e: Event, session: Session)
    requires HasPending(w.db.otp, e.hash) && session.id !in w.db.sessions && Grows(w, w')
    requires e.Committed? && e.hash == env.hash(c.phone)
    requires session.userId in w'.db.users && w'.db.users[session.userId].phone == c.phone
    requires w'.now == w.now && w'.log == w.log + [e] && w'.db.otp == ConsumeOtp(w.db.otp, e.hash)
    requires w'.db.sessions == w.db.sessions[session.id := session]
    ensures Quiet(env, w, w')
  {
    assert w'.log[|w.log|] == e;
    forall d: Ctx | ReadIssued(env, w, d) && LockOk(env, w, d)
      ensures LockOk(env, w', d)
    {
      if Live(env, w', d) {
        assert env.hash(d.phone) != e.hash;
      }
    }
    forall d: Ctx, user: string | NoCommitSince(w'.log, |w.log|, env.hash(d.phone)) && HoldsUser(w, d, user)
      ensures Shrinks(w, w', user)
    {
      assert env.hash(d.phone) != e.hash;
    }
  }

  /** Every other effect on the tables: no new session, no new row, and refreshed rows were active. */
  lemma OtherIsQuiet(env: Env, w: World, w': World)
    requires w.now <= w'.now && w.log <= w'.log
    requires forall i | |w.log| <= i < |w'.log| :: !w'.log[i].Committed?
    requires forall h | HasPending(w'.db.otp, h) ::
               HasPending(w.db.otp, h) && w.db.otp[h].mac == w'.db.otp[h].mac
               && w.db.otp[h].expiresAt == w'.db.otp[h].expiresAt
    requires forall user :: Shrinks(w, w', user)
    ensures Quiet(env, w, w')
  {
    forall c: Ctx | ReadIssued(env, w, c) && LockOk(env, w, c)
      ensures LockOk(env, w', c)
    {
      if Live(env, w', c) {
        assert Live(env, w, c);
      }
    }
  }

  lemma DeleteShrinks(w: World, id: string)
    ensures forall user :: Shrinks(w, DeleteSession(w, id), user)
  {
  }

  lemma TickShrinks(w: World, t: int)
    requires w.now <= t
    ensures forall user :: Shrinks(w, w.(now := t), user)
  {
  }

  /** A refresh strictly before the expiry changes no active set. */
  lemma RefreshShrinks(env: Env, w: World, id: string, token: string)
    requires id in w.db.sessions && w.now < w.db.sessions[id].ttl * NANOS
    ensures forall user :: Shrinks(w, RefreshSession(env, w, id, token), user)
  {
  }

  // ---------------------------------------------------------------- the limit

  lemma ShrinkKeepsLimit(w: World, w': World)
    requires LimitOk(w) && DevicesOk(w)
    requires forall user :: Shrinks(w, w', user)
    ensures LimitOk(w') && DevicesOk(w')
  {
    forall user
      ensures |ActiveIds(w', user)| <= MAX_SESSIONS_PER_USER && DevicesDistinct(w', user)
    {
      assert Shrinks(w, w', user) && DevicesDistinct(w, user);
      SubsetSize(ActiveIds(w', user), ActiveIds(w, user));
    }
  }

  /** Adding a session for a user who has at most four others, none on its device. */
  lemma AddKeepsLimit(w: World, w': World, session: Session, keep: set<string>)
    requires LimitOk(w) && DevicesOk(w)
    requires w'.now == w.now && w'.db.sessions == w.db.sessions[session.id := session] && session.id !in w.db.sessions
    requires |keep| < MAX_SESSIONS_PER_USER
    requires forall id | id in ActiveIds(w, session.userId) ::
               id in keep && w.db.sessions[id].deviceId != session.deviceId
    ensures LimitOk(w') && DevicesOk(w')
  {
    forall user
      ensures |ActiveIds(w', user)| <= MAX_SESSIONS_PER_USER && DevicesDistinct(w', user)
    {
      assert DevicesDistinct(w, user);
      if user == session.userId {
        SubsetSize(ActiveIds(w', user), keep + {session.id});
      } else {
        assert ActiveIds(w', user) == ActiveIds(w, user);
      }
    }
  }

  // ---------------------------------------------------------------- one step

  /** The listing that a request has just read covers every active session of the user. */
  lemma ListingCovers(env: Env, w: World, c: Ctx, user: string, at: int, a: Action)
    requires WorldOk(env, w) && ClockOk(at) && at <= w.now
    requires a.Answer? && IsListing(w.db.sessions, user, Stamp(env, at), a.listed)
    requires IsSplit(OffDevice(a.listed, c.device), a.evicted, a.kept)
    ensures |IdSet(a.kept)| < MAX_SESSIONS_PER_USER
    ensures Covered(env, w, c, user, IdSet(a.kept), Ids(OnDevice(a.listed, c.device)) + Ids(a.evicted))
  {
    SplitCovers(a.listed, c.device, a.evicted, a.kept);
    IdSetSize(a.kept);
    var on, ev := OnDevice(a.listed, c.device), a.evicted;
    forall id | id in ActiveIds(w, user)
      ensures id in Ids(on) + Ids(ev) || (id in IdSet(a.kept) && w.db.sessions[id].deviceId != c.device)
    {
      var s := w.db.sessions[id];
      assert SessionOk(env, w, id);
      assert TextLess(env.text(SecondsOf(at)), env.text(s.ttl));
      assert s in a.listed;
      if s in on {
        var i :| 0 <= i < |on| && on[i] == s;
        assert Ids(on)[i] == id;
      } else if s in ev {
        var i :| 0 <= i < |ev| && ev[i] == s;
        assert Ids(ev)[i] == id;
      }
    }
  }

  lemma NewUserHasNoSession(env: Env, w: World, user: string)
    requires SessionsOk(env, w) && user !in w.db.users
    ensures ActiveIds(w, user) == {}
  {
    forall id | id in w.db.sessions
      ensures w.db.sessions[id].userId != user
    {
      assert SessionOk(env, w, id);
    }
  }

  lemma RegistrationKeepsLimit(env: Env, w: World, c: Ctx, r: Registration)
    requires WorldOk(env, w) && LimitOk(w) && DevicesOk(w) && ProcOk(env, w, Registering(c, r))
    ensures var w' := CommitRegistration(w, c, r); Quiet(env, w, w') && LimitOk(w') && DevicesOk(w')
  {
    if MayRegister(w.db, r) {
      var w' := CommitRegistration(w, c, r);
      RegistrationKeepsWorld(env, w, c, r);
      SentinelKeyIsNoUuid(r.phone);
      CommitIsQuiet(env, w, w', c, w'.log[|w.log|], r.session);
      NewUserHasNoSession(env, w, r.userId);
      AddKeepsLimit(w, w', r.session, {});
    }
  }

  lemma LoginKeepsLimit(env: Env, w: World, c: Ctx, user: string, keep: set<string>, l: Login)
    requires WorldOk(env, w) && LimitOk(w) && DevicesOk(w)
    requires ProcOk(env, w, LoggingIn(c, user, keep, l)) && ProcLocked(env, w, LoggingIn(c, user, keep, l))
    ensures var w' := CommitLogin(w, c, l); Quiet(env, w, w') && LimitOk(w') && DevicesOk(w')
  {
    if MayLogin(w.db, l) {
      var w' := CommitLogin(w, c, l);
      LoginKeepsWorld(env, w, c, user, keep, l);
      CommitIsQuiet(env, w, w', c, w'.log[|w.log|], l.session);
      AddKeepsLimit(w, w', l.session, keep);
    }
  }

  /** What a request that moves relies on, apart from the other requests. */
  ghost predicate Movable(env: Env, w: World, p: Proc, a: Action) {
    && WorldOk(env, w) && LimitOk(w) && DevicesOk(w) && ProcOk(env, w, p) && ProcLocked(env, w, p)
    && CanMove(env, w, p, a)
    && (p.Putting? && !a.Quit? ==> PutsUnspentPair(env, w, p))
  }

  lemma SameSessionsKeepLimit(w: World, w': World)
    requires LimitOk(w) && DevicesOk(w) && w'.now == w.now && w'.db.sessions == w.db.sessions
    ensures LimitOk(w') && DevicesOk(w')
  {
    assert forall user :: Shrinks(w, w', user);
    ShrinkKeepsLimit(w, w');
  }

  lemma BumpIsQuiet(env: Env, w: World, hash: string)
    ensures Quiet(env, w, w.(db := w.db.(otp := BumpAttempts(w.db.otp, hash))))
  {
    var w' := w.(db := w.db.(otp := BumpAttempts(w.db.otp, hash)));
    assert forall user :: Shrinks(w, w', user);
    OtherIsQuiet(env, w, w');
  }

  lemma DeleteKeepsLimit(env: Env, w: World, id: string)
    requires LimitOk(w) && DevicesOk(w)
    ensures var w' := DeleteSession(w, id); Quiet(env, w, w') && LimitOk(w') && DevicesOk(w')
  {
    DeleteShrinks(w, id);
    OtherIsQuiet(env, w, DeleteSession(w, id));
    ShrinkKeepsLimit(w, DeleteSession(w, id));
  }

  lemma QuietReflexive(env: Env, w: World)
    ensures Quiet(env, w, w)
  {
  }

  lemma WriteKeepsLimit(env: Env, w: World, p: Proc, a: Action)
    requires Movable(env, w, p, a) && Writes(p) && !a.Quit?
    ensures var w' := MoveWorld(env, w, p, a); Quiet(env, w, w') && LimitOk(w') && DevicesOk(w')
  {
    var w' := MoveWorld(env, w, p, a);
    if p.Putting? {
      PutIsQuiet(env, w, p.phone, p.code, p.row, p.at);
      SameSessionsKeepLimit(w, w');
    } else if p.Counting? {
      BumpIsQuiet(env, w, env.hash(p.phone));
      SameSessionsKeepLimit(w, w');
    } else if p.Registering? {
      RegistrationKeepsLimit(env, w, p.c, p.r);
    } else if p.LoggingIn? {
      LoginKeepsLimit(env, w, p.c, p.user, p.keep, p.l);
    } else if p.todo == [] {
      QuietReflexive(env, w);
    } else {
      DeleteKeepsLimit(env, w, p.todo[0]);
    }
  }

  lemma MoveKeepsLimit(env: Env, w: World, p: Proc, a: Action)
    requires Movable(env, w, p, a)
    ensures var w' := MoveWorld(env, w, p, a); Quiet(env, w, w') && LimitOk(w') && DevicesOk(w')
  {
    if Writes(p) && !a.Quit? {
      WriteKeepsLimit(env, w, p, a);
    } else {
      ReadOnlyMove(env, w, p, a);
      QuietReflexive(env, w);
    }
  }

  /** Once the next session on the list is deleted, the rest of the list covers what is left. */
  lemma DeleteAdvancesCover(env: Env, w: World, c: Ctx, user: string, keep: set<string>, todo: seq<string>)
    requires todo != [] && LockOk(env, w, c) && Covered(env, w, c, user, keep, todo)
    ensures LockOk(env, DeleteSession(w, todo[0]), c)
    ensures Covered(env, DeleteSession(w, todo[0]), c, user, keep, todo[1..])
  {
    assert todo == [todo[0]] + todo[1..];
  }

  /** A step that only reads takes the lock along, or starts it. */
  lemma ReadKeepsOwnLock(env: Env, w: World, p: Proc, a: Action)
    requires ProcLocked(env, w, p) && !Writes(p)
    requires !(p.Querying? && a.Answer?)
    ensures ProcLocked(env, w, MoveProc(env, w, p, a))
  {
  }

  lemma MoveKeepsOwnLock(env: Env, w: World, p: Proc, a: Action)
    requires Movable(env, w, p, a)
    ensures ProcLocked(env, MoveWorld(env, w, p, a), MoveProc(env, w, p, a))
  {
    if !Writes(p) {
      ReadOnlyMove(env, w, p, a);
      if p.Querying? && a.Answer? {
        ListingCovers(env, w, p.c, p.user, p.at, a);
      } else {
        ReadKeepsOwnLock(env, w, p, a);
      }
    } else if p.Evicting? && p.todo != [] && !a.Quit? {
      DeleteAdvancesCover(env, w, p.c, p.user, p.keep, p.todo);
    }
  }

  lemma RefreshIsEarly(env: Env, w: World, id: string)
    requires WorldOk(env, w) && id in w.db.sessions && !ExpiredAt(env, w.db.sessions[id].expiresAt, w.now)
    requires !ExpiresNow(env, w.db.sessions[id].expiresAt, w.now)
    ensures w.now < w.db.sessions[id].ttl * NANOS
  {
    assert SessionOk(env, w, id);
  }

  lemma EnvironmentKeepsLimit(env: Env, s: State, step: Step)
    requires LimitState(env, s) && Enabled(env, s, step) && Benign(env, s, step) && !step.Move?
    ensures var w' := NextWorld(env, s, step); Quiet(env, s.w, w') && LimitOk(w') && DevicesOk(w')
  {
    var w, w' := s.w, NextWorld(env, s, step);
    match step {
      case Logout(id) => DeleteShrinks(w, id);
      case Refresh(id, token) =>
        RefreshIsEarly(env, w, id);
        RefreshShrinks(env, w, id, token);
      case Tick(t) => TickShrinks(w, t);
      case ExpireSession(id) => DeleteShrinks(w, id);
      case _ =>
    }
    OtherIsQuiet(env, w, w');
    ShrinkKeepsLimit(w, w');
  }

  lemma StepKeepsLimit(env: Env, s: State, step: Step)
    requires LimitState(env, s) && Enabled(env, s, step) && Benign(env, s, step)
    ensures LimitState(env, Next(env, s, step))
  {
    StepKeepsState(env, s, step);
    var s' := Next(env, s, step);
    if step.Move? {
      MoveKeepsLimit(env, s.w, s.procs[step.q], step.a);
    } else {
      EnvironmentKeepsLimit(env, s, step);
    }
    forall q | q in s'.procs
      ensures ProcLocked(env, s'.w, s'.procs[q])
    {
      if step.Move? && step.q == q {
        MoveKeepsOwnLock(env, s.w, s.procs[q], step.a);
      } else if q in s.procs && s'.procs[q] == s.procs[q] {
        QuietKeepsProc(env, s.w, s'.w, s.procs[q]);
      }
    }
  }

  lemma {:induction false} RunKeepsLimit(env: Env, states: seq<State>, steps: seq<Step>, n: nat)
    requires TextOk(env) && IsBenignRun(env, states, steps) && n < |states|
    ensures LimitState(env, states[n])
  {
    if n == 0 {
      RunKeepsState(env, states, steps, 0);
      assert forall user :: ActiveIds(states[0].w, user) == {};
    } else {
      RunKeepsLimit(env, states, steps, n - 1);
      RunStep(env, states, steps, n - 1);
      StepKeepsLimit(env, states[n - 1], steps[n - 1]);
    }
  }

  // ---------------------------------------------------------------- the lock of every reader

  /** Whoever read an issued row, in flight or not, has its lock. */
  ghost predicate AllLocked(env: Env, w: World) {
    forall c: Ctx | ReadIssued(env, w, c) :: LockOk(env, w, c)
  }

  /** No step adds more than one event. */
  lemma LogGrowsByOne(env: Env, s: State, step: Step)
    requires Enabled(env, s, step)
    ensures |Next(env, s, step).w.log| <= |s.w.log| + 1
  {
    if step.Move? && !Writes(s.procs[step.q]) {
      ReadOnlyMove(env, s.w, s.procs[step.q], step.a);
    }
  }

  lemma QuietKeepsAllLocked(env: Env, w: World, w': World)
    requires AllLocked(env, w) && Quiet(env, w, w') && Grows(w, w') && |w'.log| <= |w.log| + 1
    ensures AllLocked(env, w')
  {
    forall c: Ctx | ReadIssued(env, w', c)
      ensures LockOk(env, w', c)
    {
      if c.readAt <= |w.log| {
        assert w'.log[..c.readAt] == w.log[..c.readAt];
        assert ReadIssued(env, w, c);
      }
    }
  }

  lemma StepIsQuiet(env: Env, s: State, step: Step)
    requires LimitState(env, s) && Enabled(env, s, step) && Benign(env, s, step)
    ensures Quiet(env, s.w, Next(env, s, step).w)
  {
    if step.Move? {
      MoveKeepsLimit(env, s.w, s.procs[step.q], step.a);
    } else {
      EnvironmentKeepsLimit(env, s, step);
    }
  }

  /** In every state of every benign run, every reader of an issued row has its lock. */
  lemma {:induction false} RunKeepsAllLocked(env: Env, states: seq<State>, steps: seq<Step>, n: nat)
    requires TextOk(env) && IsBenignRun(env, states, steps) && n < |states|
    ensures AllLocked(env, states[n].w)
  {
    if n > 0 {
      RunKeepsAllLocked(env, states, steps, n - 1);
      RunKeepsLimit(env, states, steps, n - 1);
      RunStep(env, states, steps, n - 1);
      StepKeepsState(env, states[n - 1], steps[n - 1]);
      StepIsQuiet(env, states[n - 1], steps[n - 1]);
      LogGrowsByOne(env, states[n - 1], steps[n - 1]);
      QuietKeepsAllLocked(env, states[n - 1].w, states[n].w);
    }
  }

  /** So the equivalence is about runs: after any benign run, an OTP put that succeeds keeps the lock of every reader if
      and only if no session was created for the phone since its pair was issued before. */
  lemma RunPutKeepsLocksExactly(env: Env, states: seq<State>, steps: seq<Step>, n: nat, q: nat)
    requires TextOk(env) && IsBenignRun(env, states, steps) && n < |states|
    requires q in states[n].procs && states[n].procs[q].Putting?
    requires var p := states[n].procs[q]; MayCreateOtp(states[n].w.db.otp, env.hash(p.phone), Stamp(env, p.at))
    ensures var w, p := states[n].w, states[n].procs[q];
            (forall c: Ctx | ReadIssued(env, w, c) :: LockOk(env, Next(env, states[n], Move(q, Run)).w, c))
            <==> !CommitSinceIssue(w.log, env.hash(p.phone), p.row.mac, p.row.expiresAt)
  {
    var w, p := states[n].w, states[n].procs[q];
    RunKeepsAllLocked(env, states, steps, n);
    RunKeepsLimit(env, states, steps, n);
    assert ProcOk(env, w, p);
    PutKeepsLocksExactly(env, w, p.phone, p.code, p.row, p.at);
  }
}
