/** The session limit of a phone. Two rows carry a phone, the user and the sentinel, and the lookup may return either;
    each of them has its own limit of five. */
module PhoneLimit {
  import opened Domain
  import opened Rfc3339
  import opened Tables
  import opened Records
  import opened Protocol
  import opened ProtocolHistory
  import opened ProtocolLimit
  import opened Outcomes
  import Stores

  /** The unexpired sessions of every row that carries `phone`, be it the user or the sentinel. */
  function UnexpiredOfPhone(w: World, phone: string): set<string> {
    set id | id in w.db.sessions && w.db.sessions[id].userId in w.db.users
             && w.db.users[w.db.sessions[id].userId].phone == phone && w.now < w.db.sessions[id].ttl * NANOS
  }

  /** The lookup by phone may return the sentinel row, and then sessions are filed under its key; so the limit
      for a phone is that of its two rows together. */
  lemma PhoneSessionLimit(env: Env, states: seq<State>, steps: seq<Step>, n: nat, phone: string)
    requires TextOk(env) && IsBenignRun(env, states, steps) && n < |states|
    ensures |UnexpiredOfPhone(states[n].w, phone)| <= 2 * MAX_SESSIONS_PER_USER
  {
    RunKeepsLimit(env, states, steps, n);
    var w := states[n].w;
    var sentinel := SentinelKey(phone);
    var owner := if sentinel in w.db.users && w.db.users[sentinel].Sentinel? then w.db.users[sentinel].owner else "";
    forall id | id in UnexpiredOfPhone(w, phone)
      ensures id in ActiveIds(w, sentinel) + ActiveIds(w, owner)
    {
      assert UserRowOk(w.db.users, w.db.sessions[id].userId);
    }
    SubsetSize(UnexpiredOfPhone(w, phone), ActiveIds(w, sentinel) + ActiveIds(w, owner));
    UnionSize(ActiveIds(w, sentinel), ActiveIds(w, owner));
  }

  /** The row that a request has found for its phone. */
  function HeldRow(p: Proc): Option<string> {
    match p
    case Loading(_, key, _) => Some(key)
    case Listing(_, user) => Some(user)
    case Querying(_, user, _) => Some(user)
    case Evicting(_, user, _, _) => Some(user)
    case LoggingIn(_, user, _, _) => Some(user)
    case _ => None
  }

  /** The users index does not answer with a sentinel. */
  ghost predicate AnswersUser(s: State, step: Step) {
    step.Move? && step.a.Hit? && step.a.key.Some? && step.a.key.value in s.w.db.users ==>
      s.w.db.users[step.a.key.value].User?
  }

  ghost predicate IsUserKey(w: World, key: string) {
    key in w.db.users && w.db.users[key].User?
  }

  /** Sessions are filed, and will be filed, under users only. */
  ghost predicate FiledUnderUsers(s: State) {
    && (forall id | id in s.w.db.sessions :: IsUserKey(s.w, s.w.db.sessions[id].userId))
    && (forall q | q in s.procs && HeldRow(s.procs[q]).Some? :: IsUserKey(s.w, HeldRow(s.procs[q]).value))
  }

  lemma HeldRowMoves(env: Env, w: World, p: Proc, a: Action)
    ensures var held := HeldRow(MoveProc(env, w, p, a));
            held.Some? ==> held == HeldRow(p) || (p.Finding? && a.Hit? && a.key == held)
  {
  }

  /** A session in the table after a move was there before, or its owner is the new user or the row held. */
  lemma MoveFilesSession(env: Env, w: World, p: Proc, a: Action, id: string)
    requires ProcOk(env, w, p) && id in MoveWorld(env, w, p, a).db.sessions
    ensures var w' := MoveWorld(env, w, p, a);
            var user := w'.db.sessions[id].userId;
            || (id in w.db.sessions && w.db.sessions[id].userId == user)
            || (p.Registering? && IsUserKey(w', user))
            || (p.LoggingIn? && HeldRow(p) == Some(user))
  {
    if p.Registering? {
      SentinelKeyIsNoUuid(p.r.phone);
    } else if !Writes(p) {
      ReadOnlyMove(env, w, p, a);
    }
  }

  lemma StepKeepsFiling(env: Env, s: State, step: Step)
    requires StateOk(env, s) && Enabled(env, s, step) && FiledUnderUsers(s) && AnswersUser(s, step)
    ensures FiledUnderUsers(Next(env, s, step))
  {
    var s' := Next(env, s, step);
    StepKeepsState(env, s, step);
    forall id | id in s'.w.db.sessions
      ensures IsUserKey(s'.w, s'.w.db.sessions[id].userId)
    {
      if step.Move? {
        MoveFilesSession(env, s.w, s.procs[step.q], step.a, id);
      }
    }
    forall q | q in s'.procs && HeldRow(s'.procs[q]).Some?
      ensures IsUserKey(s'.w, HeldRow(s'.procs[q]).value)
    {
      if step.Move? && step.q == q {
        HeldRowMoves(env, s.w, s.procs[q], step.a);
      }
    }
  }

  lemma {:induction false} RunKeepsFiling(env: Env, states: seq<State>, steps: seq<Step>, n: nat)
    requires TextOk(env) && IsRun(env, states, steps) && n < |states|
    requires forall i {:trigger AnswersUser(states[i], steps[i])} ::
               0 <= i < |steps| ==> AnswersUser(states[i], steps[i])
    ensures FiledUnderUsers(states[n])
  {
    if n > 0 {
      RunKeepsFiling(env, states, steps, n - 1);
      RunKeepsState(env, states, steps, n - 1);
      RunStep(env, states, steps, n - 1);
      StepKeepsFiling(env, states[n - 1], steps[n - 1]);
    }
  }

  /** If the index never answers with a sentinel, a phone has at most five unexpired sessions in all. */
  lemma PhoneSessionLimitWithoutSentinels(env: Env, states: seq<State>, steps: seq<Step>, n: nat, phone: string)
    requires TextOk(env) && IsBenignRun(env, states, steps) && n < |states|
    requires forall i {:trigger AnswersUser(states[i], steps[i])} ::
               0 <= i < |steps| ==> AnswersUser(states[i], steps[i])
    ensures |UnexpiredOfPhone(states[n].w, phone)| <= MAX_SESSIONS_PER_USER
  {
    RunKeepsLimit(env, states, steps, n);
    RunKeepsFiling(env, states, steps, n);
    var w := states[n].w;
    if id :| id in UnexpiredOfPhone(w, phone) {
      var owner := w.db.sessions[id].userId;
      forall id' | id' in UnexpiredOfPhone(w, phone)
        ensures id' in ActiveIds(w, owner)
      {
        PhoneHasOneUser(w.db.users, w.db.sessions[id'].userId, owner);
      }
      SubsetSize(UnexpiredOfPhone(w, phone), ActiveIds(w, owner));
    }
  }

  // ---------------------------------------------------------------- exactly when a login keeps the limit

  /** The other row that carries the phone of row `user`. */
  function OtherRow(users: map<string, UserRow>, user: string): string
    requires user in users
  {
    match users[user]
    case User(phone, _, _) => SentinelKey(phone)
    case Sentinel(_, owner) => owner
  }

  function ActiveElsewhere(w: World, user: string, device: string): set<string> {
    set id | id in ActiveIds(w, user) && w.db.sessions[id].deviceId != device
  }

  /** Listing by time text finds the active sessions. */
  lemma ListableIsActive(env: Env, w: World, user: string, device: string)
    requires WorldOk(env, w)
    ensures Listable(w.db.sessions, user, Stamp(env, w.now)) == ActiveIds(w, user)
    ensures ListableElsewhere(w.db.sessions, user, device, Stamp(env, w.now)) == ActiveElsewhere(w, user, device)
  {
    forall id | id in w.db.sessions
      ensures TextLess(Stamp(env, w.now), w.db.sessions[id].expiresAt) <==> w.now < w.db.sessions[id].ttl * NANOS
    {
      assert SessionOk(env, w, id);
      var ttl := w.db.sessions[id].ttl;
      assert TextLess(env.text(SecondsOf(w.now)), env.text(ttl)) <==> SecondsOf(w.now) < ttl;
    }
  }

  /** The sessions of a phone are those of the two rows that carry it. */
  lemma PhoneIsTwoRows(w: World, user: string)
    requires UsersOk(w.db.users) && user in w.db.users
    ensures UnexpiredOfPhone(w, w.db.users[user].phone)
            == ActiveIds(w, user) + ActiveIds(w, OtherRow(w.db.users, user))
    ensures ActiveIds(w, user) !! ActiveIds(w, OtherRow(w.db.users, user))
  {
    var phone, other := w.db.users[user].phone, OtherRow(w.db.users, user);
    assert UserRowOk(w.db.users, user) && UserRowOk(w.db.users, other);
    SentinelKeyIsNoUuid(phone);
    forall k | k in w.db.users && w.db.users[k].phone == phone
      ensures k == user || k == other
    {
      assert UserRowOk(w.db.users, k);
    }
  }

  /** The world after a login filed under `user` that removed `removed`. */
  function AfterLogin(env: Env, w: World, user: string, device: string, id: string, token: string,
                      removed: set<string>): World
  {
    w.(db := w.db.(sessions := (w.db.sessions - removed)[id := NewSession(env, id, user, device, token, w.now)]))
  }

  lemma ActiveAfterLogin(env: Env, w: World, user: string, other: string, device: string, id: string, token: string,
                         removed: set<string>)
    requires ClockOk(w.now) && id !in w.db.sessions - removed && user != other
    requires removed <= ActiveIds(w, user) && ActiveIds(w, user) - ActiveElsewhere(w, user, device) <= removed
    ensures var w' := AfterLogin(env, w, user, device, id, token, removed);
            && ActiveIds(w', user) == (ActiveElsewhere(w, user, device) - removed) + {id}
            && ActiveIds(w', other) == ActiveIds(w, other)
            && id !in ActiveElsewhere(w, user, device) - removed
  {
    ExpiryStamp(env, w.now, REFRESH_TOKEN_LIFETIME);
  }

  /** What a login removes, in terms of active sessions. */
  lemma ActiveRemoval(env: Env, w: World, user: string, device: string, removed: set<string>)
    requires WorldOk(env, w) && LoginRemoves(w.db.sessions, user, device, Stamp(env, w.now), removed)
    ensures var others := ActiveElsewhere(w, user, device);
            && removed <= ActiveIds(w, user) && ActiveIds(w, user) - others <= removed
            && |others - removed| == Min(|others|, MAX_SESSIONS_PER_USER - 1)
  {
    assert Stores.KeyedById(w.db.sessions) by {
      forall id | id in w.db.sessions
        ensures w.db.sessions[id].id == id
      {
        assert SessionOk(env, w, id);
      }
    }
    RemovalOfLogin(w.db.sessions, user, device, Stamp(env, w.now), removed);
    ListableIsActive(env, w, user, device);
  }

  lemma RowsDiffer(users: map<string, UserRow>, user: string)
    requires UsersOk(users) && user in users
    ensures OtherRow(users, user) != user
  {
    assert UserRowOk(users, user);
    SentinelKeyIsNoUuid(users[user].phone);
  }

  /** What a login leaves its row with, and the other row untouched. */
  lemma RowsAfterLogin(env: Env, w: World, user: string, device: string, id: string, token: string,
                       removed: set<string>)
    requires UsersOk(w.db.users) && ClockOk(w.now) && user in w.db.users && id !in w.db.sessions - removed
    requires var others := ActiveElsewhere(w, user, device);
             && removed <= ActiveIds(w, user) && ActiveIds(w, user) - others <= removed
             && |others - removed| == Min(|others|, MAX_SESSIONS_PER_USER - 1)
    ensures var w', other := AfterLogin(env, w, user, device, id, token, removed), OtherRow(w.db.users, user);
            && |ActiveIds(w', user)| == Min(|ActiveElsewhere(w, user, device)|, MAX_SESSIONS_PER_USER - 1) + 1
            && ActiveIds(w', other) == ActiveIds(w, other)
  {
    RowsDiffer(w.db.users, user);
    ActiveAfterLogin(env, w, user, OtherRow(w.db.users, user), device, id, token, removed);
  }

  /** Exactly when a login keeps a phone within five sessions: if and only if the sessions it keeps for its own row,
      which are at most four, and those of the other row, which it does not look at, are fewer than five. */
  lemma LoginKeepsPhoneLimitExactly(env: Env, w: World, user: string, device: string, id: string, token: string,
                                    removed: set<string>)
    requires WorldOk(env, w) && user in w.db.users && id !in w.db.sessions - removed
    requires LoginRemoves(w.db.sessions, user, device, Stamp(env, w.now), removed)
    ensures var w', other := AfterLogin(env, w, user, device, id, token, removed), OtherRow(w.db.users, user);
            |UnexpiredOfPhone(w', w.db.users[user].phone)| <= MAX_SESSIONS_PER_USER
            <==> Min(|ActiveElsewhere(w, user, device)|, MAX_SESSIONS_PER_USER - 1) + |ActiveIds(w, other)|
                 < MAX_SESSIONS_PER_USER
  {
    var w', other := AfterLogin(env, w, user, device, id, token, removed), OtherRow(w.db.users, user);
    ActiveRemoval(env, w, user, device, removed);
    RowsAfterLogin(env, w, user, device, id, token, removed);
    PhoneIsTwoRows(w', user);
    UnionSize(ActiveIds(w', user), ActiveIds(w', other));
    assert ActiveIds(w', user) * ActiveIds(w', other) == {};
  }
}
