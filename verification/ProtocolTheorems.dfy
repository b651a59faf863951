/** The theorems about whole runs of the OTP login protocol. */
module ProtocolTheorems {
  import opened Domain
  import opened Rfc3339
  import opened Otp
  import opened Tables
  import opened Records
  import opened Protocol
  import opened ProtocolHistory
  import opened ProtocolLimit

  // ---------------------------------------------------------------- the session limit

  /** The sessions of `user` whose stored expiry, read back, is still ahead. */
  function UnexpiredIds(env: Env, w: World, user: string): set<string> {
    set id | id in w.db.sessions && w.db.sessions[id].userId == user
             && env.read(w.db.sessions[id].expiresAt).Some?
             && w.now < env.read(w.db.sessions[id].expiresAt).value * NANOS
  }

  lemma UnexpiredIsActive(env: Env, w: World, user: string)
    requires WorldOk(env, w)
    ensures UnexpiredIds(env, w, user) == ActiveIds(w, user)
  {
    forall id | id in w.db.sessions
      ensures env.read(w.db.sessions[id].expiresAt) == Some(w.db.sessions[id].ttl)
    {
      assert SessionOk(env, w, id);
    }
  }

  /** In every state of every benign run, a user has at most five unexpired sessions, on distinct devices. */
  lemma SessionLimit(env: Env, states: seq<State>, steps: seq<Step>, n: nat, user: string)
    requires TextOk(env) && IsBenignRun(env, states, steps) && n < |states|
    ensures var w := states[n].w;
            && |UnexpiredIds(env, w, user)| <= 5
            && forall id, id' | id in UnexpiredIds(env, w, user) && id' in UnexpiredIds(env, w, user)
                                && w.db.sessions[id].deviceId == w.db.sessions[id'].deviceId :: id == id'
  {
    RunKeepsLimit(env, states, steps, n);
    UnexpiredIsActive(env, states[n].w, user);
    assert DevicesDistinct(states[n].w, user);
  }

  /** The exact price of accepting a refresh at the expiry instant itself: a refresh that the code accepts
      keeps the limit exactly when the session is unexpired or its user is below the limit, and keeps
      devices distinct exactly when it is unexpired or its device has no unexpired session. */
  lemma RefreshKeepsLimitExactly(env: Env, w: World, id: string, token: string)
    requires WorldOk(env, w) && LimitOk(w) && DevicesOk(w)
    requires id in w.db.sessions && !ExpiredAt(env, w.db.sessions[id].expiresAt, w.now)
    ensures var s := w.db.sessions[id];
            LimitOk(RefreshSession(env, w, id, token))
            <==> w.now < s.ttl * NANOS || |ActiveIds(w, s.userId)| < MAX_SESSIONS_PER_USER
    ensures var s := w.db.sessions[id];
            DevicesOk(RefreshSession(env, w, id, token))
            <==> w.now < s.ttl * NANOS
                 || forall id' | id' in ActiveIds(w, s.userId) :: w.db.sessions[id'].deviceId != s.deviceId
  {
    var s, w' := w.db.sessions[id], RefreshSession(env, w, id, token);
    ExpiryStamp(env, w.now, REFRESH_TOKEN_LIFETIME);
    assert w.now < w'.db.sessions[id].ttl * NANOS;
    if w.now < s.ttl * NANOS {
      RefreshShrinks(env, w, id, token);
      ShrinkKeepsLimit(w, w');
    } else {
      RevivalLimit(w, w', id);
      RevivalDevices(w, w', id);
    }
  }

  /** An expired row that becomes active again counts as one more session of its user. */
  lemma RevivalLimit(w: World, w': World, id: string)
    requires LimitOk(w) && w'.now == w.now && id in w.db.sessions && id !in ActiveIds(w, w.db.sessions[id].userId)
    requires id in w'.db.sessions && w'.db.sessions[id].userId == w.db.sessions[id].userId
    requires w'.db.sessions == w.db.sessions[id := w'.db.sessions[id]] && w.now < w'.db.sessions[id].ttl * NANOS
    ensures LimitOk(w') <==> |ActiveIds(w, w.db.sessions[id].userId)| < MAX_SESSIONS_PER_USER
  {
    var owner := w.db.sessions[id].userId;
    assert ActiveIds(w', owner) == ActiveIds(w, owner) + {id};
    forall user | user != owner
      ensures ActiveIds(w', user) == ActiveIds(w, user)
    {
    }
  }

  lemma RevivalDevices(w: World, w': World, id: string)
    requires DevicesOk(w) && w'.now == w.now && id in w.db.sessions && id !in ActiveIds(w, w.db.sessions[id].userId)
    requires id in w'.db.sessions && w'.db.sessions[id].userId == w.db.sessions[id].userId
    requires w'.db.sessions[id].deviceId == w.db.sessions[id].deviceId
    requires w'.db.sessions == w.db.sessions[id := w'.db.sessions[id]] && w.now < w'.db.sessions[id].ttl * NANOS
    ensures DevicesOk(w') <==>
            forall id' | id' in ActiveIds(w, w.db.sessions[id].userId) ::
              w.db.sessions[id'].deviceId != w.db.sessions[id].deviceId
  {
    var owner, device := w.db.sessions[id].userId, w.db.sessions[id].deviceId;
    assert ActiveIds(w', owner) == ActiveIds(w, owner) + {id};
    if DevicesOk(w') {
      forall id' | id' in ActiveIds(w, owner)
        ensures w.db.sessions[id'].deviceId != device
      {
        assert DevicesDistinct(w', owner);
        assert id' in ActiveIds(w', owner) && id in ActiveIds(w', owner);
      }
    } else {
      var user :| !DevicesDistinct(w', user);
      assert DevicesDistinct(w, user);
    }
  }

  // ---------------------------------------------------------------- the optimistic lock

  function CtxOf(p: Proc): Option<Ctx> {
    match p
    case Checking(c, _) => Some(c)
    case Finding(c, _) => Some(c)
    case Loading(c, _, _) => Some(c)
    case NewUser(c) => Some(c)
    case Registering(c, _) => Some(c)
    case Listing(c, _) => Some(c)
    case Querying(c, _, _) => Some(c)
    case Evicting(c, _, _, _) => Some(c)
    case LoggingIn(c, _, _, _) => Some(c)
    case _ => None
  }

  /** After its one read of the OTP row, a call only carries that read along. */
  ghost predicate Carries(s: State, q: nat, c: Ctx) {
    q in s.procs && (CtxOf(s.procs[q]) == Some(c) || s.procs[q].Counting? || s.procs[q].Finished?)
  }

  lemma {:induction false} ReadIsCarried(env: Env, states: seq<State>, steps: seq<Step>, q: nat, i: nat, c: Ctx, n: nat)
    requires IsRun(env, states, steps) && i <= n < |states| && Carries(states[i], q, c)
    ensures Carries(states[n], q, c)
  {
    if i < n {
      ReadIsCarried(env, states, steps, q, i, c, n - 1);
      RunStep(env, states, steps, n - 1);
      CarriesStep(env, states[n - 1], steps[n - 1], q, c);
    }
  }

  lemma CarriesStep(env: Env, s: State, step: Step, q: nat, c: Ctx)
    requires Enabled(env, s, step) && Carries(s, q, c)
    ensures Carries(Next(env, s, step), q, c)
  {
    if step.Move? && step.q == q {
      var p' := MoveProc(env, s.w, s.procs[q], step.a);
      assert Next(env, s, step).procs[q] == p';
    }
  }

  /** A session of a user with this phone is there that was not there before. */
  ghost predicate GainsSession(w: World, w': World, phone: string) {
    exists id :: id in w'.db.sessions && id !in w.db.sessions && w'.db.sessions[id].userId in w'.db.users
                 && w'.db.users[w'.db.sessions[id].userId].phone == phone
  }

  /** The step lets request `q` create its session. */
  ghost predicate CommitsNow(s: State, step: Step, q: nat) {
    && step == Move(q, Run) && q in s.procs
    && (|| (s.procs[q].Registering? && MayRegister(s.w.db, s.procs[q].r))
        || (s.procs[q].LoggingIn? && MayLogin(s.w.db, s.procs[q].l)))
  }

  /** New sessions of a phone appear only by consuming that phone's OTP row. */
  lemma GainIsCommit(env: Env, s: State, step: Step, phone: string)
    requires StateOk(env, s) && Enabled(env, s, step) && GainsSession(s.w, Next(env, s, step).w, phone)
    ensures var log' := Next(env, s, step).w.log; |log'| == |s.w.log| + 1 && CommitsOn(log'[|s.w.log|], env.hash(phone))
  {
    var w' := Next(env, s, step).w;
    var id :| id in w'.db.sessions && id !in s.w.db.sessions && w'.db.sessions[id].userId in w'.db.users
              && w'.db.users[w'.db.sessions[id].userId].phone == phone;
    assert step.Move?;
    var p := s.procs[step.q];
    assert p.Registering? || p.LoggingIn?;
    assert ProcOk(env, s.w, p);
    if p.Registering? {
      SentinelKeyIsNoUuid(p.r.phone);
    }
  }

  /** At its commit, a request's history shows no commit on its phone since the step at which it read the row. */
  lemma NoCommitSinceRead(env: Env, states: seq<State>, steps: seq<Step>, q: nat, i: nat, j: nat)
    requires TextOk(env) && IsBenignRun(env, states, steps) && i < j < |steps|
    requires q in states[i].procs && states[i].procs[q].Verifying? && steps[i] == Move(q, Run)
    requires CommitsNow(states[j], steps[j], q)
    ensures NoCommitSince(states[j].w.log, |states[i].w.log|, env.hash(states[i].procs[q].phone))
  {
    var p1 := MoveProc(env, states[i].w, states[i].procs[q], Run);
    RunStep(env, states, steps, i);
    assert states[i + 1].procs[q] == p1;
    if p1.Checking? {
      ReadIsCarried(env, states, steps, q, i + 1, p1.c, j);
      RunKeepsLimit(env, states, steps, j);
      assert ProcOk(env, states[j].w, states[j].procs[q]) && ProcLocked(env, states[j].w, states[j].procs[q]);
    } else {
      FinishedStays(env, states, steps, q, i + 1, j);
    }
  }

  /** Optimistic lock: between the step at which a request reads the OTP row and the step at which its
      transaction commits, no session is created for that phone, whatever else is interleaved. */
  lemma OptimisticLock(env: Env, states: seq<State>, steps: seq<Step>, q: nat, i: nat, j: nat, k: nat)
    requires TextOk(env) && IsBenignRun(env, states, steps) && i < k < j < |steps|
    requires q in states[i].procs && states[i].procs[q].Verifying? && steps[i] == Move(q, Run)
    requires CommitsNow(states[j], steps[j], q)
    ensures !GainsSession(states[k].w, states[k + 1].w, states[i].procs[q].phone)
  {
    NoCommitSinceRead(env, states, steps, q, i, j);
    RunGrows(env, states, steps, i, k);
    if GainsSession(states[k].w, states[k + 1].w, states[i].procs[q].phone) {
      GainStaysInLog(env, states, steps, k, j, states[i].procs[q].phone);
    }
  }

  lemma GainStaysInLog(env: Env, states: seq<State>, steps: seq<Step>, k: nat, j: nat, phone: string)
    requires TextOk(env) && IsRun(env, states, steps) && k < j < |states|
    requires GainsSession(states[k].w, states[k + 1].w, phone)
    ensures |states[k].w.log| < |states[j].w.log| && CommitsOn(states[j].w.log[|states[k].w.log|], env.hash(phone))
  {
    RunKeepsState(env, states, steps, k);
    RunStep(env, states, steps, k);
    GainIsCommit(env, states[k], steps[k], phone);
    RunGrows(env, states, steps, k + 1, j);
  }

  lemma {:induction false} FinishedStays(env: Env, states: seq<State>, steps: seq<Step>, q: nat, i: nat, n: nat)
    requires IsRun(env, states, steps) && i <= n < |states|
    requires q in states[i].procs && states[i].procs[q].Finished?
    ensures q in states[n].procs && states[n].procs[q].Finished?
  {
    if i < n {
      FinishedStays(env, states, steps, q, i, n - 1);
      RunStep(env, states, steps, n - 1);
    }
  }

  // ---------------------------------------------------------------- each OTP is spent once

  ghost predicate SpentAt(log: seq<Event>, i: int, hash: string, mac: Mac, expiresAt: string) {
    0 <= i < |log| && CommitsOn(log[i], hash) && log[i].mac == mac && log[i].expiresAt == expiresAt
  }

  /** A pending row has not been spent, and no pair has been spent twice. */
  ghost predicate SpentOk(w: World) {
    && (forall h, i | HasPending(w.db.otp, h) :: !SpentAt(w.log, i, h, w.db.otp[h].mac, w.db.otp[h].expiresAt))
    && (forall i, j, h, mac, at | SpentAt(w.log, i, h, mac, at) && SpentAt(w.log, j, h, mac, at) :: i == j)
  }

  lemma SpentAtShorter(log: seq<Event>, e: Event, i: int, hash: string, mac: Mac, expiresAt: string)
    ensures i < |log| ==> (SpentAt(log + [e], i, hash, mac, expiresAt) <==> SpentAt(log, i, hash, mac, expiresAt))
  {
  }

  lemma SpentSinceIssue(env: Env, w: World, i: int, hash: string, mac: Mac, expiresAt: string)
    requires LogOk(env, w) && SpentAt(w.log, i, hash, mac, expiresAt)
    ensures CommitSinceIssue(w.log, hash, mac, expiresAt)
  {
    assert EventOk(env, w, i);
    var j :| IssuedAt(w.log[..i], j, hash, mac, expiresAt);
    assert IssuedAt(w.log, j, hash, mac, expiresAt);
  }

  lemma PutKeepsSpent(env: Env, w: World, phone: string, code: string, row: OtpRow, at: int)
    requires LogOk(env, w) && SpentOk(w) && PutsUnspentPair(env, w, Putting(phone, code, row, at))
    ensures SpentOk(PutOtp(env, w, phone, env.hash(phone), code, row, at))
  {
    var hash := env.hash(phone);
    var w' := PutOtp(env, w, phone, hash, code, row, at);
    if w' != w {
      var e := w'.log[|w.log|];
      forall i, h, mac, x | SpentAt(w'.log, i, h, mac, x)
        ensures SpentAt(w.log, i, h, mac, x) && !(h == hash && mac == row.mac && x == row.expiresAt)
      {
        SpentAtShorter(w.log, e, i, h, mac, x);
        SpentSinceIssue(env, w, i, h, mac, x);
      }
    }
  }

  lemma CommitKeepsSpent(w: World, w': World, e: Event)
    requires SpentOk(w) && e.Committed? && w'.log == w.log + [e]
    requires OtpMatches(w.db.otp, e.hash, e.expiresAt, e.mac) && w'.db.otp == ConsumeOtp(w.db.otp, e.hash)
    ensures SpentOk(w')
  {
    forall i, h, mac, x | SpentAt(w'.log, i, h, mac, x)
      ensures if i < |w.log| then SpentAt(w.log, i, h, mac, x) else h == e.hash && mac == e.mac && x == e.expiresAt
    {
      SpentAtShorter(w.log, e, i, h, mac, x);
    }
  }

  lemma OtherKeepsSpent(w: World, w': World)
    requires SpentOk(w) && w.log <= w'.log && forall i | |w.log| <= i < |w'.log| :: !w'.log[i].Committed?
    requires forall h | HasPending(w'.db.otp, h) ::
               HasPending(w.db.otp, h) && w.db.otp[h].mac == w'.db.otp[h].mac
               && w.db.otp[h].expiresAt == w'.db.otp[h].expiresAt
    ensures SpentOk(w')
  {
    forall i, h, mac, x | SpentAt(w'.log, i, h, mac, x)
      ensures SpentAt(w.log, i, h, mac, x)
    {
    }
  }

  lemma MoveKeepsSpent(env: Env, w: World, p: Proc, a: Action)
    requires WorldOk(env, w) && SpentOk(w) && ProcOk(env, w, p) && !a.Quit?
    requires p.Putting? ==> PutsUnspentPair(env, w, p)
    ensures SpentOk(MoveWorld(env, w, p, a))
  {
    var w' := MoveWorld(env, w, p, a);
    if p.Putting? {
      PutKeepsSpent(env, w, p.phone, p.code, p.row, p.at);
    } else if p.Registering? && MayRegister(w.db, p.r) {
      CommitKeepsSpent(w, w', w'.log[|w.log|]);
    } else if p.LoggingIn? && MayLogin(w.db, p.l) {
      CommitKeepsSpent(w, w', w'.log[|w.log|]);
    } else if Writes(p) {
      OtherKeepsSpent(w, w');
    } else {
      ReadOnlyMove(env, w, p, a);
    }
  }

  lemma StepKeepsSpent(env: Env, s: State, step: Step)
    requires StateOk(env, s) && SpentOk(s.w) && Enabled(env, s, step) && Benign(env, s, step)
    ensures SpentOk(Next(env, s, step).w)
  {
    if step.Move? {
      if step.a.Quit? {
        ReadOnlyMove(env, s.w, s.procs[step.q], step.a);
      } else {
        MoveKeepsSpent(env, s.w, s.procs[step.q], step.a);
      }
    } else {
      OtherKeepsSpent(s.w, Next(env, s, step).w);
    }
  }

  /** No issued OTP ever creates two sessions. */
  lemma {:induction false} OtpSpentOnce(env: Env, states: seq<State>, steps: seq<Step>, n: nat)
    requires TextOk(env) && IsBenignRun(env, states, steps) && n < |states|
    ensures SpentOk(states[n].w)
  {
    if n > 0 {
      OtpSpentOnce(env, states, steps, n - 1);
      RunKeepsState(env, states, steps, n - 1);
      RunStep(env, states, steps, n - 1);
      StepKeepsSpent(env, states[n - 1], steps[n - 1]);
    }
  }

  // ---------------------------------------------------------------- conservation, users, origin

  /** For every phone hash and every run: OTPs issued are consumed, replaced while pending, removed while
      pending, or pending now; so sessions never outnumber OTPs. */
  lemma OtpConservation(env: Env, states: seq<State>, steps: seq<Step>, n: nat, hash: string)
    requires TextOk(env) && IsRun(env, states, steps) && n < |states|
    ensures var w := states[n].w;
            && Total(OtpsIssued(hash), w.log)
               == Total(OtpsConsumed(hash), w.log) + Total(PendingReplaced(hash), w.log)
                  + Total(PendingRemoved(hash), w.log) + OneIf(HasPending(w.db.otp, hash))
            && Total(OtpsConsumed(hash), w.log) <= Total(OtpsIssued(hash), w.log)
  {
    RunKeepsState(env, states, steps, n);
    assert Balanced(states[n].w, hash);
  }

  /** In every run a phone has at most one user, is reported as new at most once, and every session
      belongs to a row of the users table. */
  lemma PhoneUniqueness(env: Env, states: seq<State>, steps: seq<Step>, n: nat, phone: string)
    requires TextOk(env) && IsRun(env, states, steps) && n < |states|
    ensures var w := states[n].w;
            && Total(Registrations(phone), w.log) == OneIf(SentinelKey(phone) in w.db.users)
            && (forall k, l | k in w.db.users && l in w.db.users && w.db.users[k].User? && w.db.users[l].User?
                              && w.db.users[k].phone == phone && w.db.users[l].phone == phone :: k == l)
            && (forall k | k in w.db.users && w.db.users[k].User? && w.db.users[k].phone == phone ::
                  SentinelKey(phone) in w.db.users && w.db.users[SentinelKey(phone)] == Sentinel(phone, k))
            && (forall id | id in w.db.sessions :: w.db.sessions[id].userId in w.db.users)
  {
    RunKeepsState(env, states, steps, n);
    var w := states[n].w;
    assert RegisteredOnce(w, phone);
    forall k, l | k in w.db.users && l in w.db.users && w.db.users[k].User? && w.db.users[l].User?
                  && w.db.users[k].phone == phone && w.db.users[l].phone == phone
      ensures k == l
    {
      PhoneHasOneUser(w.db.users, k, l);
    }
    forall k | k in w.db.users && w.db.users[k].User? && w.db.users[k].phone == phone
      ensures SentinelKey(phone) in w.db.users && w.db.users[SentinelKey(phone)] == Sentinel(phone, k)
    {
      assert UserRowOk(w.db.users, k);
    }
    forall id | id in w.db.sessions
      ensures w.db.sessions[id].userId in w.db.users
    {
      assert SessionOk(env, w, id);
    }
  }

  /** Event `j` issued the code that the caller of commit `i` presented for session `s`, to the phone of the
      user that `s` belongs to. */
  ghost predicate AuthorisedBy(w: World, s: Session, i: nat, j: nat) {
    && j < i < |w.log|
    && w.log[i].Committed? && w.log[i].sessionId == s.id && w.log[i].userId == s.userId
    && w.log[j].Issued? && w.log[j].code == w.log[i].candidate
    && s.userId in w.db.users && w.db.users[s.userId].phone == w.log[j].phone
  }

  /** Every stored session goes back to a caller who presented the very code that had been issued to the
      phone of the session's user. */
  lemma SessionOrigin(env: Env, states: seq<State>, steps: seq<Step>, n: nat, id: string)
    requires TextOk(env) && CollisionFree(env) && IsRun(env, states, steps) && n < |states|
    requires id in states[n].w.db.sessions
    ensures exists i: nat, j: nat :: AuthorisedBy(states[n].w, states[n].w.db.sessions[id], i, j)
  {
    RunKeepsState(env, states, steps, n);
    var w := states[n].w;
    var s := w.db.sessions[id];
    assert SessionOk(env, w, id);
    var i :| 0 <= i < |w.log| && w.log[i].Committed? && w.log[i].sessionId == id && w.log[i].userId == s.userId
             && w.log[i].deviceId == s.deviceId;
    assert EventOk(env, w, i);
    var e := w.log[i];
    var j :| IssuedAt(w.log[..i], j, e.hash, e.mac, e.expiresAt);
    assert w.log[j] == w.log[..i][j] && EventOk(env, w, j);
    MacBindsTriple(env.pepper, w.log[j].code, e.hash, e.expiresAt, e.candidate, e.hash, e.expiresAt);
    assert AuthorisedBy(w, s, i, j);
  }

  // ---------------------------------------------------------------- expiry of a pending OTP

  /** At one instant a pending OTP is verifiable, replaceable, or neither, never both; and it is neither
      only strictly inside the second after its expiry. */
  lemma OtpDeadGap(env: Env, expiresAt: string, ttl: int, t: int)
    requires TextOk(env) && ExpiryOk(env, expiresAt, ttl) && ClockOk(t)
    ensures var verifiable, overwritable := !ExpiredAt(env, expiresAt, t), TextLess(expiresAt, Stamp(env, t));
            && !(verifiable && overwritable)
            && (!verifiable && !overwritable <==> 0 < t - ttl * NANOS < NANOS)
  {
    assert TextLess(env.text(ttl), env.text(SecondsOf(t))) <==> ttl < SecondsOf(t);
  }

  /** In every run, an OTP that gets replaced while pending can no longer be verified at that moment. */
  lemma ReplacedOtpIsExpired(env: Env, states: seq<State>, steps: seq<Step>, i: nat, q: nat)
    requires TextOk(env) && IsRun(env, states, steps) && i < |steps|
    requires steps[i] == Move(q, Run) && q in states[i].procs && states[i].procs[q].Putting?
    requires var h := env.hash(states[i].procs[q].phone);
             HasPending(states[i].w.db.otp, h) && states[i + 1].w != states[i].w
    ensures ExpiredAt(env, states[i].w.db.otp[env.hash(states[i].procs[q].phone)].expiresAt, states[i].w.now)
  {
    RunKeepsState(env, states, steps, i);
    var w, p := states[i].w, states[i].procs[q];
    var h := env.hash(p.phone);
    assert ProcOk(env, w, p) && OtpRowOk(env, w, h);
    RunStep(env, states, steps, i);
    OtpDeadGap(env, w.db.otp[h].expiresAt, w.db.otp[h].ttl, p.at);
  }
}
