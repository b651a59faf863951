/** The two views of the service agree: whatever a sequence of whole calls on the objects does to the tables, the
    protocol does too, by running the requests one after the other; and the refresh chain sees the same sessions. */
module SerialCalls {
  import opened Domain
  import opened Rfc3339
  import opened Otp
  import opened Tables
  import opened Records
  import opened Eviction
  import opened Protocol
  import opened ProtocolLimit
  import opened ProtocolPaths
  import opened Outcomes
  import VerifyCall
  import RefreshChain

  // ---------------------------------------------------------------- what a request leaves in the history

  /** What identifies an OTP: the phone hash, the digest and the expiry. */
  datatype Pair = Pair(hash: string, mac: Mac, expiresAt: string)

  /** No OTP but these was issued. */
  ghost predicate IssuedWithin(log: seq<Event>, pairs: set<Pair>) {
    forall i | 0 <= i < |log| && log[i].Issued? :: Pair(log[i].hash, log[i].mac, log[i].expiresAt) in pairs
  }

  /** The request, alone, can finish with the tables `after`, having issued nothing but `pairs` so far. */
  ghost predicate Serves(g: Stage, w: World, p: Proc, after: Db, pairs: set<Pair>) {
    exists w': World ::
      Leads(g, w, p, w', Finished) && w'.db == after && w'.now == w.now && IssuedWithin(w'.log, pairs)
  }

  // ---------------------------------------------------------------- the parts of a verification

  /** The context that a verification carries once it has read `row`. */
  function ReadCtx(w: World, phone: string, device: string, candidate: string, row: OtpRow): Ctx {
    Ctx(phone, device, candidate, row.mac, row.expiresAt, |w.log|)
  }

  lemma ReadRow(g: Stage, w: World, phone: string, candidate: string, device: string, row: OtpRow)
    requires g.env.hash(phone) in w.db.otp && w.db.otp[g.env.hash(phone)] == row
    ensures Leads(g, w, Verifying(phone, candidate, device), w,
                  Checking(ReadCtx(w, phone, device, candidate, row), row))
  {
    OneMove(g, w, Verifying(phone, candidate, device), Run);
  }

  /** Reading the row and passing every check on it. */
  lemma ReadAndCheck(g: Stage, w: World, phone: string, candidate: string, device: string, row: OtpRow)
    requires g.env.hash(phone) in w.db.otp && w.db.otp[g.env.hash(phone)] == row
    requires VerifyCall.Examine(g.env, g.env.hash(phone), Some(row), candidate, w.now).Right?
    ensures Leads(g, w, Verifying(phone, candidate, device), w,
                  Finding(ReadCtx(w, phone, device, candidate, row), false))
  {
    ReadRow(g, w, phone, candidate, device, row);
    var c := ReadCtx(w, phone, device, candidate, row);
    ThenMove(g, w, Verifying(phone, candidate, device), w, Checking(c, row), Run);
  }

  /** A wrong candidate costs the row an attempt. */
  lemma WrongAlone(g: Stage, w: World, phone: string, candidate: string, device: string, pairs: set<Pair>)
    requires g.env.hash(phone) in w.db.otp && IssuedWithin(w.log, pairs)
    requires VerifyCall.Examine(g.env, g.env.hash(phone), Some(w.db.otp[g.env.hash(phone)]), candidate, w.now).Wrong?
    ensures Serves(g, w, Verifying(phone, candidate, device),
                   w.db.(otp := BumpAttempts(w.db.otp, g.env.hash(phone))), pairs)
  {
    var p, row := Verifying(phone, candidate, device), w.db.otp[g.env.hash(phone)];
    ReadRow(g, w, phone, candidate, device, row);
    ThenMove(g, w, p, w, Checking(ReadCtx(w, phone, device, candidate, row), row), Run);
    ThenMove(g, w, p, w, Counting(phone), Run);
  }

  /** A registration commits, or the phone is looked up again in vain. */
  lemma RegisterAlone(g: Stage, w0: World, p0: Proc, w: World, c: Ctx, drawn: Drawn, pairs: set<Pair>)
    requires Leads(g, w0, p0, w, Finding(c, false)) && w.now == w0.now && IssuedWithin(w.log, pairs)
    requires IsUuid(drawn.userId)
    ensures var session := NewSession(g.env, drawn.sessionId, drawn.userId, c.device, drawn.token, w.now);
            var r := Registration(g.env.hash(c.phone), c.expiresAt, c.mac, drawn.userId, c.phone,
                                  Stamp(g.env, w.now), session);
            Serves(g, w0, p0, if MayRegister(w.db, r) then ApplyRegistration(w.db, r) else w.db, pairs)
  {
    var session := NewSession(g.env, drawn.sessionId, drawn.userId, c.device, drawn.token, w.now);
    var r := Registration(g.env.hash(c.phone), c.expiresAt, c.mac, drawn.userId, c.phone, Stamp(g.env, w.now), session);
    ThenMove(g, w0, p0, w, Finding(c, false), Hit(None));
    ThenMove(g, w0, p0, w, NewUser(c), DrawIds(drawn.userId, drawn.sessionId, drawn.token));
    ThenMove(g, w0, p0, w, Registering(c, r), Run);
    if !MayRegister(w.db, r) {
      ThenMove(g, w0, p0, w, Finding(c, true), Hit(None));
    }
  }

  function WithoutSessions(w: World, ids: set<string>): World {
    w.(db := w.db.(sessions := w.db.sessions - ids))
  }

  lemma DeleteFirst(w: World, todo: seq<Session>)
    requires todo != []
    ensures WithoutSessions(DeleteSession(w, todo[0].id), IdSet(todo[1..])) == WithoutSessions(w, IdSet(todo))
  {
    assert todo == [todo[0]] + todo[1..];
    assert IdSet(todo) == {todo[0].id} + IdSet(todo[1..]);
    assert w.db.sessions - {todo[0].id} - IdSet(todo[1..]) == w.db.sessions - IdSet(todo);
  }

  /** The deletions of a login, one step each, with `rest` still to come. */
  lemma {:induction false} DeleteAlone(g: Stage, w: World, c: Ctx, user: string, keep: set<string>,
                                       todo: seq<Session>, rest: seq<string>)
    ensures Leads(g, w, Evicting(c, user, keep, Ids(todo) + rest),
                  WithoutSessions(w, IdSet(todo)), Evicting(c, user, keep, rest))
    decreases |todo|
  {
    var p := Evicting(c, user, keep, Ids(todo) + rest);
    if todo == [] {
      assert Ids(todo) + rest == rest && WithoutSessions(w, IdSet(todo)) == w;
      LeadsNowhere(g, w, p);
    } else {
      assert (Ids(todo) + rest)[0] == todo[0].id && (Ids(todo) + rest)[1..] == Ids(todo[1..]) + rest;
      OneMove(g, w, p, Run);
      DeleteAlone(g, DeleteSession(w, todo[0].id), c, user, keep, todo[1..], rest);
      DeleteFirst(w, todo);
      LeadsOn(g, w, p, DeleteSession(w, todo[0].id), Evicting(c, user, keep, Ids(todo[1..]) + rest),
              WithoutSessions(w, IdSet(todo)), Evicting(c, user, keep, rest));
    }
  }

  lemma FindAlone(g: Stage, w0: World, p0: Proc, w: World, c: Ctx, user: string)
    requires Leads(g, w0, p0, w, Finding(c, false))
    requires user in w.db.users && w.db.users[user].phone == c.phone
    ensures Leads(g, w0, p0, w, Querying(c, user, w.now))
  {
    ThenMove(g, w0, p0, w, Finding(c, false), Hit(Some(user)));
    ThenMove(g, w0, p0, w, Loading(c, user, false), Run);
    ThenMove(g, w0, p0, w, Listing(c, user), Run);
  }

  lemma IdsConcat(xs: seq<Session>, ys: seq<Session>)
    ensures Ids(xs + ys) == Ids(xs) + Ids(ys)
  {
  }

  /** Listing the sessions and planning the deletions. */
  lemma ListAlone(g: Stage, w0: World, p0: Proc, w: World, c: Ctx, user: string, listed: seq<Session>,
                  evicted: seq<Session>, kept: seq<Session>)
    requires Leads(g, w0, p0, w, Querying(c, user, w.now))
    requires IsListing(w.db.sessions, user, Stamp(g.env, w.now), listed)
    requires IsSplit(OffDevice(listed, c.device), evicted, kept)
    ensures Leads(g, w0, p0, w, Evicting(c, user, IdSet(kept), Ids(OnDevice(listed, c.device)) + Ids(evicted)))
  {
    ThenMove(g, w0, p0, w, Querying(c, user, w.now), Answer(listed, evicted, kept));
  }

  /** Finding the row, listing its sessions and planning the deletions. */
  lemma FindAndList(g: Stage, w0: World, p0: Proc, w: World, c: Ctx, user: string, todo: seq<Session>)
    returns (keep: set<string>)
    requires Leads(g, w0, p0, w, Finding(c, false))
    requires user in w.db.users && w.db.users[user].phone == c.phone
    requires LoginTodo(w.db.sessions, user, c.device, Stamp(g.env, w.now), todo)
    ensures Leads(g, w0, p0, w, Evicting(c, user, keep, Ids(todo)))
  {
    var listed, evicted, kept :| && IsListing(w.db.sessions, user, Stamp(g.env, w.now), listed)
                                 && IsSplit(OffDevice(listed, c.device), evicted, kept)
                                 && todo == OnDevice(listed, c.device) + evicted;
    keep := IdSet(kept);
    IdsConcat(OnDevice(listed, c.device), evicted);
    FindAlone(g, w0, p0, w, c, user);
    ListAlone(g, w0, p0, w, c, user, listed, evicted, kept);
  }

  lemma {:induction false} HandledIsPrefix(todo: seq<Session>, revoke: Replies)
    ensures Handled(todo, revoke) <= todo
  {
    if todo != [] {
      HandledIsPrefix(todo[1..], revoke);
    }
  }

  /** After the deletions: a stop. */
  lemma StopAlone(g: Stage, w0: World, p0: Proc, w: World, p: Proc, pairs: set<Pair>)
    requires Leads(g, w0, p0, w, p) && p.Evicting? && w.now == w0.now && IssuedWithin(w.log, pairs)
    ensures Serves(g, w0, p0, w.db, pairs)
  {
    ThenMove(g, w0, p0, w, p, Quit);
  }

  /** After the deletions: a commit, or its refusal. */
  lemma CommitAlone(g: Stage, w0: World, p0: Proc, w: World, c: Ctx, user: string, keep: set<string>, drawn: Drawn,
                    pairs: set<Pair>)
    requires Leads(g, w0, p0, w, Evicting(c, user, keep, [])) && w.now == w0.now && IssuedWithin(w.log, pairs)
    ensures var session := NewSession(g.env, drawn.loginSessionId, user, c.device, drawn.loginToken, w.now);
            var login := Login(g.env.hash(c.phone), c.expiresAt, c.mac, session);
            Serves(g, w0, p0, if MayLogin(w.db, login) then ApplyLogin(w.db, login) else w.db, pairs)
  {
    var session := NewSession(g.env, drawn.loginSessionId, user, c.device, drawn.loginToken, w.now);
    var login := Login(g.env.hash(c.phone), c.expiresAt, c.mac, session);
    ThenMove(g, w0, p0, w, Evicting(c, user, keep, []), DrawIds("", drawn.loginSessionId, drawn.loginToken));
    ThenMove(g, w0, p0, w, LoggingIn(c, user, keep, login), Run);
  }

  /** The deletions of a login, as far as Redis answers. */
  lemma MakeRoomAlone(g: Stage, w0: World, p0: Proc, w: World, c: Ctx, user: string, todo: seq<Session>,
                      revoke: Replies)
    returns (keep: set<string>, rest: seq<string>)
    requires Leads(g, w0, p0, w, Finding(c, false))
    requires user in w.db.users && w.db.users[user].phone == c.phone
    requires LoginTodo(w.db.sessions, user, c.device, Stamp(g.env, w.now), todo)
    ensures Leads(g, w0, p0, WithoutSessions(w, IdSet(Handled(todo, revoke))), Evicting(c, user, keep, rest))
    ensures AllDelivered(todo, revoke) ==> rest == []
  {
    keep := FindAndList(g, w0, p0, w, c, user, todo);
    HandledIsPrefix(todo, revoke);
    var done := Handled(todo, revoke);
    rest := Ids(todo[|done|..]);
    IdsConcat(done, todo[|done|..]);
    assert todo == done + todo[|done|..];
    DeleteAlone(g, w, c, user, keep, done, rest);
    LeadsOn(g, w0, p0, w, Evicting(c, user, keep, Ids(todo)),
            WithoutSessions(w, IdSet(done)), Evicting(c, user, keep, rest));
    if AllDelivered(todo, revoke) {
      HandledAll(todo, revoke);
    }
  }

  /** A login deletes as far as it gets, and then commits, finds its commit refused, or stops. */
  lemma LoginAlone(g: Stage, w0: World, p0: Proc, w: World, c: Ctx, record: OtpRow, user: string, drawn: Drawn,
                   revoke: Replies, after: Db, r: Result<VerifyResult>, removed: set<string>, pairs: set<Pair>)
    requires Leads(g, w0, p0, w, Finding(c, false)) && w.now == w0.now && IssuedWithin(w.log, pairs)
    requires user in w.db.users && w.db.users[user].phone == c.phone
    requires record.expiresAt == c.expiresAt && record.mac == c.mac
    requires LoginOutcome(g.env, w.db, after, g.env.hash(c.phone), record, user, c.device, drawn, revoke, w.now, r,
                          removed)
    ensures Serves(g, w0, p0, after, pairs)
  {
    var session := NewSession(g.env, drawn.loginSessionId, user, c.device, drawn.loginToken, w.now);
    var login := Login(g.env.hash(c.phone), c.expiresAt, c.mac, session);
    var w1 := WithoutSessions(w, removed);
    var todo :| && LoginTodo(w.db.sessions, user, c.device, Stamp(g.env, w.now), todo)
                && removed == IdSet(Handled(todo, revoke))
                && after == if AllDelivered(todo, revoke) && MayLogin(w1.db, login) then ApplyLogin(w1.db, login)
                            else w1.db;
    var keep, rest := MakeRoomAlone(g, w0, p0, w, c, user, todo, revoke);
    if AllDelivered(todo, revoke) {
      CommitAlone(g, w0, p0, w1, c, user, keep, drawn, pairs);
    } else {
      StopAlone(g, w0, p0, w1, Evicting(c, user, keep, rest), pairs);
    }
  }

  /** Whatever a whole verification does to the tables, one request of the protocol does on its own. */
  lemma VerificationAlone(g: Stage, w: World, call: ServiceCall, after: Db, pairs: set<Pair>)
    requires call.Verify? && Effect(g.env, w.db, call, w.now, after) && after != w.db
    requires IsUuid(call.drawn.userId) && IssuedWithin(w.log, pairs)
    ensures Serves(g, w, Verifying(call.phone, call.candidate, call.device), after, pairs)
  {
    var phone, candidate, device, drawn := call.phone, call.candidate, call.device, call.drawn;
    var hash, p, revoke := g.env.hash(phone), Verifying(phone, candidate, device), call.replies.revoke;
    var row := w.db.otp[hash];
    if VerifyCall.Examine(g.env, hash, Get(w.db.otp, hash), candidate, w.now).Wrong? {
      WrongAlone(g, w, phone, candidate, device, pairs);
    } else {
      var c := ReadCtx(w, phone, device, candidate, row);
      ReadAndCheck(g, w, phone, candidate, device, row);
      var r, removed :| Completion(g.env, w.db, after, phone, row, device, drawn, revoke, w.now, r, removed);
      if Unregistered(w.db.users, phone) {
        RegisterAlone(g, w, p, w, c, drawn, pairs);
      } else {
        var user :| user in w.db.users && w.db.users[user].phone == phone &&
                    LoginOutcome(g.env, w.db, after, hash, row, user, device, drawn, revoke, w.now, r, removed);
        LoginAlone(g, w, p, w, c, row, user, drawn, revoke, after, r, removed, pairs);
      }
    }
  }

  // ---------------------------------------------------------------- one whole call

  /** Some reachable state of the protocol has these tables at this time. */
  ghost predicate Hosted(env: Env, strict: bool, db: Db, now: int, pairs: set<Pair>) {
    exists s :: Reachable(env, strict, s) && s.w.db == db && s.w.now == now && IssuedWithin(s.w.log, pairs)
  }

  lemma FreshKey(keys: set<nat>) returns (q: nat)
    ensures q !in keys
  {
    q := 0;
    var rest := keys;
    while rest != {}
      invariant rest <= keys && forall k | k in keys && k !in rest :: k < q
      decreases rest
    {
      var k :| k in rest;
      rest := rest - {k};
      q := if k < q then q else k + 1;
    }
  }

  lemma TickTo(env: Env, strict: bool, db: Db, now: int, pairs: set<Pair>, later: int)
    requires Hosted(env, strict, db, now, pairs) && now <= later && ClockOk(later)
    ensures Hosted(env, strict, db, later, pairs)
  {
    var s :| Reachable(env, strict, s) && s.w.db == db && s.w.now == now && IssuedWithin(s.w.log, pairs);
    OneStep(env, strict, s, Tick(later));
    ReachableOn(env, strict, s, Next(env, s, Tick(later)));
  }

  /** A request arrives, runs alone, and finishes. */
  lemma ServedAlone(env: Env, strict: bool, s: State, p: Proc, q: nat, after: Db, pairs: set<Pair>)
    requires Reachable(env, strict, s) && q !in s.procs && Enabled(env, s, Arrive(q, p))
    requires Serves(Stage(env, strict, s.procs, q), s.w, p, after, pairs)
    ensures Hosted(env, strict, after, s.w.now, pairs)
  {
    var g := Stage(env, strict, s.procs, q);
    var w' :| Leads(g, s.w, p, w', Finished) && w'.db == after && w'.now == s.w.now && IssuedWithin(w'.log, pairs);
    OneStep(env, strict, s, Arrive(q, p));
    ReachableOn(env, strict, s, At(g, s.w, p));
    ReachableOn(env, strict, At(g, s.w, p), At(g, w', Finished));
  }

  lemma StepServes(env: Env, strict: bool, s: State, step: Step, pairs: set<Pair>)
    requires Reachable(env, strict, s) && Enabled(env, s, step) && (strict ==> Benign(env, s, step))
    requires IssuedWithin(Next(env, s, step).w.log, pairs)
    ensures Hosted(env, strict, Next(env, s, step).w.db, Next(env, s, step).w.now, pairs)
  {
    OneStep(env, strict, s, step);
    ReachableOn(env, strict, s, Next(env, s, step));
  }

  /** The OTP that an effective request issues. */
  function PairOf(env: Env, phone: string, n: nat, now: int): Pair
    requires n < Pow10(CODE_WIDTH)
  {
    var row := NewOtp(env, phone, GenerateOtp(n), now);
    Pair(env.hash(phone), row.mac, row.expiresAt)
  }

  /** What a call issues: nothing, unless it is an OTP request that changes the tables. */
  function IssuedBy(env: Env, before: Db, call: ServiceCall, now: int, after: Db): set<Pair> {
    if call.Request? && call.n < Pow10(CODE_WIDTH) && after != before then {PairOf(env, call.phone, call.n, now)}
    else {}
  }

  /** What is assumed of a call: it draws proper identifiers; and in a strict run, an OTP request that stores an OTP
      does not repeat one of `pairs`, and an effective refresh does not come at the very expiry of its session. */
  ghost predicate Admissible(env: Env, strict: bool, before: Db, call: ServiceCall, now: int, after: Db,
                             pairs: set<Pair>)
  {
    && ClockOk(now)
    && (call.Verify? ==> IsUuid(call.drawn.userId))
    && (strict ==>
          && IssuedBy(env, before, call, now, after) !! pairs
          && (call.Refresh? && after != before && call.id in before.sessions ==>
                !ExpiresNow(env, before.sessions[call.id].expiresAt, now)))
  }

  lemma RequestAlone(g: Stage, w: World, phone: string, n: nat, pairs: set<Pair>)
    requires n < Pow10(CODE_WIDTH) && IssuedWithin(w.log, pairs)
    requires MayCreateOtp(w.db.otp, g.env.hash(phone), Stamp(g.env, w.now))
    requires g.strict ==> PairOf(g.env, phone, n, w.now) !in pairs
    ensures Serves(g, w, Requesting(phone),
                   w.db.(otp := w.db.otp[g.env.hash(phone) := NewOtp(g.env, phone, GenerateOtp(n), w.now)]),
                   pairs + {PairOf(g.env, phone, n, w.now)})
  {
    var p, code, hash := Requesting(phone), GenerateOtp(n), g.env.hash(phone);
    var row := NewOtp(g.env, phone, code, w.now);
    OneMove(g, w, p, DrawCode(n));
    ThenMove(g, w, p, w, Built(phone, code, row), Run);
    assert g.strict ==> PutsUnspentPair(g.env, w, Putting(phone, code, row, w.now)) by {
      assert forall i | IssuedAt(w.log, i, hash, row.mac, row.expiresAt) :: PairOf(g.env, phone, n, w.now) in pairs;
    }
    ThenMove(g, w, p, w, Putting(phone, code, row, w.now), Run);
  }

  /** A refresh that rotates is the refresh step; one that detects reuse deletes as a logout does. */
  lemma RefreshIsHosted(env: Env, strict: bool, s: State, call: ServiceCall, after: Db, pairs: set<Pair>)
    requires Reachable(env, strict, s) && IssuedWithin(s.w.log, pairs) && call.Refresh?
    requires Effect(env, s.w.db, call, s.w.now, after) && after != s.w.db
    requires Admissible(env, strict, s.w.db, call, s.w.now, after, pairs)
    ensures Hosted(env, strict, after, s.w.now, pairs)
  {
    if RefreshChain.Decide(env, s.w.db.sessions, call.id, call.device, call.token, s.w.now).Rotate? {
      StepServes(env, strict, s, Step.Refresh(call.id, call.next), pairs);
    } else {
      StepServes(env, strict, s, Step.Logout(call.id), pairs);
    }
  }

  lemma RequestIsHosted(env: Env, strict: bool, s: State, call: ServiceCall, after: Db, pairs: set<Pair>)
    requires Reachable(env, strict, s) && IssuedWithin(s.w.log, pairs) && call.Request?
    requires Effect(env, s.w.db, call, s.w.now, after) && after != s.w.db
    requires Admissible(env, strict, s.w.db, call, s.w.now, after, pairs)
    ensures Hosted(env, strict, after, s.w.now, pairs + IssuedBy(env, s.w.db, call, s.w.now, after))
  {
    var q := FreshKey(s.procs.Keys);
    RequestAlone(Stage(env, strict, s.procs, q), s.w, call.phone, call.n, pairs);
    ServedAlone(env, strict, s, Requesting(call.phone), q, after, pairs + IssuedBy(env, s.w.db, call, s.w.now, after));
  }

  lemma VerificationIsHosted(env: Env, strict: bool, s: State, call: ServiceCall, after: Db, pairs: set<Pair>)
    requires Reachable(env, strict, s) && IssuedWithin(s.w.log, pairs) && call.Verify?
    requires Effect(env, s.w.db, call, s.w.now, after) && after != s.w.db && IsUuid(call.drawn.userId)
    ensures Hosted(env, strict, after, s.w.now, pairs)
  {
    var q := FreshKey(s.procs.Keys);
    var g := Stage(env, strict, s.procs, q);
    VerificationAlone(g, s.w, call, after, pairs);
    ServedAlone(env, strict, s, Verifying(call.phone, call.candidate, call.device), q, after, pairs);
  }

  /** A logout, or a removal by TTL, is one step. */
  lemma RemovalIsHosted(env: Env, strict: bool, s: State, call: ServiceCall, after: Db, pairs: set<Pair>)
    requires Reachable(env, strict, s) && IssuedWithin(s.w.log, pairs)
    requires call.Logout? || call.ExpireOtp? || call.ExpireSession?
    requires Effect(env, s.w.db, call, s.w.now, after) && after != s.w.db
    ensures Hosted(env, strict, after, s.w.now, pairs)
  {
    var step := if call.Logout? then Step.Logout(call.id)
                else if call.ExpireOtp? then Step.ExpireOtp(call.hash)
                else Step.ExpireSession(call.id);
    StepServes(env, strict, s, step, pairs);
  }

  /** A whole call of the service is a piece of a run of the protocol, whether it succeeds or fails. */
  lemma CallIsHosted(env: Env, strict: bool, before: Db, call: ServiceCall, now: int, after: Db, pairs: set<Pair>)
    requires Hosted(env, strict, before, now, pairs) && Effect(env, before, call, now, after)
    requires Admissible(env, strict, before, call, now, after, pairs)
    ensures Hosted(env, strict, after, now, pairs + IssuedBy(env, before, call, now, after))
  {
    var s :| Reachable(env, strict, s) && s.w.db == before && s.w.now == now && IssuedWithin(s.w.log, pairs);
    assert !call.Request? || after == before ==> pairs + IssuedBy(env, before, call, now, after) == pairs;
    if after != before {
      if call.Request? {
        RequestIsHosted(env, strict, s, call, after, pairs);
      } else if call.Verify? {
        VerificationIsHosted(env, strict, s, call, after, pairs);
      } else if call.Refresh? {
        RefreshIsHosted(env, strict, s, call, after, pairs);
      } else {
        RemovalIsHosted(env, strict, s, call, after, pairs);
      }
    }
  }

  // ---------------------------------------------------------------- whole serial runs

  datatype Timed = Timed(call: ServiceCall, now: int)

  ghost predicate CallStep(env: Env, before: Db, call: Timed, after: Db) {
    && Effect(env, before, call.call, call.now, after)
    && ClockOk(call.now) && (call.call.Verify? ==> IsUuid(call.call.drawn.userId))
  }

  const EMPTY := Db(map[], map[], map[])

  /** Whole calls, one after the other, from empty tables. */
  ghost predicate IsSerialRun(env: Env, dbs: seq<Db>, calls: seq<Timed>) {
    && |dbs| == |calls| + 1
    && dbs[0] == EMPTY
    && (forall i {:trigger CallStep(env, dbs[i], calls[i], dbs[i + 1])} ::
          0 <= i < |calls| ==> CallStep(env, dbs[i], calls[i], dbs[i + 1]))
    && (forall i, j :: 0 <= i < j < |calls| ==> calls[i].now <= calls[j].now)
  }

  /** What call `i` of the run issues. */
  function IssuedAtCall(env: Env, dbs: seq<Db>, calls: seq<Timed>, i: nat): set<Pair>
    requires |dbs| == |calls| + 1 && i < |calls|
  {
    IssuedBy(env, dbs[i], calls[i].call, calls[i].now, dbs[i + 1])
  }

  /** Call `i` is an effective refresh at the very expiry of its session. */
  ghost predicate RefreshesAtExpiry(env: Env, dbs: seq<Db>, calls: seq<Timed>, i: nat)
    requires |dbs| == |calls| + 1 && i < |calls|
  {
    && calls[i].call.Refresh? && dbs[i + 1] != dbs[i] && calls[i].call.id in dbs[i].sessions
    && ExpiresNow(env, dbs[i].sessions[calls[i].call.id].expiresAt, calls[i].now)
  }

  /** No two requests that store an OTP store the same pair for one phone hash, and no effective refresh comes at the
      very expiry of its session. */
  ghost predicate IsStrict(env: Env, dbs: seq<Db>, calls: seq<Timed>)
    requires |dbs| == |calls| + 1
  {
    && (forall i: nat, j: nat | i < j < |calls| :: IssuedAtCall(env, dbs, calls, i) !! IssuedAtCall(env, dbs, calls, j))
    && (forall i: nat | i < |calls| :: !RefreshesAtExpiry(env, dbs, calls, i))
  }

  /** What the first `n` calls issue. */
  function AllIssued(env: Env, dbs: seq<Db>, calls: seq<Timed>, n: nat): set<Pair>
    requires |dbs| == |calls| + 1 && n <= |calls|
  {
    if n == 0 then {} else AllIssued(env, dbs, calls, n - 1) + IssuedAtCall(env, dbs, calls, n - 1)
  }

  lemma {:induction false} IssuedBefore(env: Env, dbs: seq<Db>, calls: seq<Timed>, n: nat, k: nat)
    requires |dbs| == |calls| + 1 && IsStrict(env, dbs, calls) && n <= k < |calls|
    ensures AllIssued(env, dbs, calls, n) !! IssuedAtCall(env, dbs, calls, k)
  {
    if n > 0 {
      IssuedBefore(env, dbs, calls, n - 1, k);
    }
  }

  lemma CallIsAdmissible(env: Env, strict: bool, dbs: seq<Db>, calls: seq<Timed>, n: nat)
    requires IsSerialRun(env, dbs, calls) && (strict ==> IsStrict(env, dbs, calls)) && n < |calls|
    ensures Admissible(env, strict, dbs[n], calls[n].call, calls[n].now, dbs[n + 1], AllIssued(env, dbs, calls, n))
  {
    assert CallStep(env, dbs[n], calls[n], dbs[n + 1]);
    if strict {
      IssuedBefore(env, dbs, calls, n, n);
      assert !RefreshesAtExpiry(env, dbs, calls, n);
    }
  }

  lemma EmptyIsHosted(env: Env, strict: bool, now: int)
    requires ClockOk(now)
    ensures Hosted(env, strict, EMPTY, now, {})
  {
    var s := State(World(now, EMPTY, []), map[]);
    ReachesItself(env, strict, s);
  }

  lemma NextCallIsHosted(env: Env, strict: bool, dbs: seq<Db>, calls: seq<Timed>, n: nat)
    requires IsSerialRun(env, dbs, calls) && (strict ==> IsStrict(env, dbs, calls)) && n < |calls|
    requires Hosted(env, strict, dbs[n], calls[n].now, AllIssued(env, dbs, calls, n))
    ensures Hosted(env, strict, dbs[n + 1], calls[n].now, AllIssued(env, dbs, calls, n + 1))
  {
    assert CallStep(env, dbs[n], calls[n], dbs[n + 1]);
    CallIsAdmissible(env, strict, dbs, calls, n);
    CallIsHosted(env, strict, dbs[n], calls[n].call, calls[n].now, dbs[n + 1], AllIssued(env, dbs, calls, n));
  }

  lemma {:induction false} SerialRunIsHosted(env: Env, strict: bool, dbs: seq<Db>, calls: seq<Timed>, n: nat)
    requires IsSerialRun(env, dbs, calls) && (strict ==> IsStrict(env, dbs, calls)) && n < |calls|
    ensures Hosted(env, strict, dbs[n + 1], calls[n].now, AllIssued(env, dbs, calls, n + 1))
  {
    assert CallStep(env, dbs[n], calls[n], dbs[n + 1]);
    if n == 0 {
      EmptyIsHosted(env, strict, calls[n].now);
    } else {
      SerialRunIsHosted(env, strict, dbs, calls, n - 1);
      TickTo(env, strict, dbs[n], calls[n - 1].now, AllIssued(env, dbs, calls, n), calls[n].now);
    }
    NextCallIsHosted(env, strict, dbs, calls, n);
  }

  /** Every serial run of whole calls and TTL removals, failing calls included, is a run of the protocol that ends in
      the same tables at the same time; and the run is benign if the calls are strict. */
  lemma SerialRunIsProtocolRun(env: Env, strict: bool, dbs: seq<Db>, calls: seq<Timed>)
    returns (states: seq<State>, steps: seq<Protocol.Step>)
    requires IsSerialRun(env, dbs, calls) && (strict ==> IsStrict(env, dbs, calls)) && calls != []
    ensures IsRun(env, states, steps) && (strict ==> IsBenignRun(env, states, steps))
    ensures states[|steps|].w.db == dbs[|calls|] && states[|steps|].w.now == calls[|calls| - 1].now
  {
    var n := |calls| - 1;
    SerialRunIsHosted(env, strict, dbs, calls, n);
    var s :| Reachable(env, strict, s) && s.w.db == dbs[n + 1] && s.w.now == calls[n].now
             && IssuedWithin(s.w.log, AllIssued(env, dbs, calls, n + 1));
    states, steps := ReachableByRun(env, strict, s);
  }

  /** So what holds of all runs of the protocol holds of the objects: after any strict sequence of whole calls, a user
      has at most five unexpired sessions. */
  lemma SerialSessionLimit(env: Env, dbs: seq<Db>, calls: seq<Timed>, user: string)
    requires TextOk(env) && IsSerialRun(env, dbs, calls) && IsStrict(env, dbs, calls) && calls != []
    ensures var db, now := dbs[|calls|], calls[|calls| - 1].now;
            |set id | id in db.sessions && db.sessions[id].userId == user && now < db.sessions[id].ttl * NANOS|
            <= MAX_SESSIONS_PER_USER
  {
    var states, steps := SerialRunIsProtocolRun(env, true, dbs, calls);
    RunKeepsLimit(env, states, steps, |steps|);
    var w, db, now := states[|steps|].w, dbs[|calls|], calls[|calls| - 1].now;
    assert ActiveIds(w, user)
           == set id | id in db.sessions && db.sessions[id].userId == user && now < db.sessions[id].ttl * NANOS;
  }
}
