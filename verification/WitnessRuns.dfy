/** Runs that show the session limits to be sharp: a phone with ten sessions, and a user with six after a refresh at the
    very expiry. They are runs of the whole service, with its limits: one OTP request and one verification per limiter
    window. */
module WitnessRuns {
  import opened Domain
  import opened Rfc3339
  import opened Otp
  import opened Tables
  import opened Records
  import opened Eviction
  import opened Outcomes
  import opened Protocol
  import opened ProtocolLimit
  import opened SerialCalls
  import opened ServiceRuns
  import opened PhoneLimit
  import RateLimit
  import RefreshChain
  import Stores
  import VerifyCall

  // ---------------------------------------------------------------- names

  /** The user of these runs. */
  function Owner(): string {
    seq(36, _ => '0')
  }

  /** The name of the session with number `k`, and of its device. */
  function Name(k: nat): string {
    seq(k + 1, _ => 'x')
  }

  function Names(lo: nat, hi: nat): set<string> {
    set i | lo <= i < hi :: Name(i)
  }

  lemma NamesDiffer(i: nat, j: nat)
    ensures Name(i) == Name(j) <==> i == j
  {
    assert |Name(i)| == i + 1 && |Name(j)| == j + 1;
  }

  lemma {:induction false} NamesSize(lo: nat, hi: nat)
    requires lo <= hi
    ensures |Names(lo, hi)| == hi - lo
  {
    if lo < hi {
      NamesSize(lo, hi - 1);
      assert Names(lo, hi) == Names(lo, hi - 1) + {Name(hi - 1)};
      assert Name(hi - 1) !in Names(lo, hi - 1) by {
        forall i: nat | lo <= i < hi - 1
          ensures Name(i) != Name(hi - 1)
        {
          NamesDiffer(i, hi - 1);
        }
      }
    }
  }

  // ---------------------------------------------------------------- one login after the other

  /** Session number `i` was created at `times[i]` and filed under `rows[i]`; the last OTP is consumed. */
  ghost predicate Ladder(env: Env, phone: string, db: Db, rows: seq<string>, times: seq<int>) {
    && |rows| == |times|
    && env.hash(phone) in db.otp && db.otp[env.hash(phone)].status.Verified?
    && Owner() in db.users && db.users[Owner()].phone == phone
    && SentinelKey(phone) in db.users && db.users[SentinelKey(phone)].phone == phone
    && db.sessions.Keys == Names(0, |rows|)
    && forall i: nat | i < |rows| :: IsRung(env, db, i, rows[i], times[i])
  }

  function RungOf(env: Env, i: nat, row: string, at: int): Session {
    NewSession(env, Name(i), row, Name(i), Name(i), at)
  }

  ghost predicate IsRung(env: Env, db: Db, i: nat, row: string, at: int) {
    Name(i) in db.sessions && db.sessions[Name(i)] == RungOf(env, i, row, at)
  }

  /** The tables after an OTP request at `now`. */
  function WithOtp(env: Env, db: Db, phone: string, now: int): Db {
    db.(otp := db.otp[env.hash(phone) := NewOtp(env, phone, GenerateOtp(0), now)])
  }

  /** The fresh code passes every check. */
  lemma FreshCodeIsRight(env: Env, db: Db, phone: string, now: int)
    requires TextOk(env) && ClockOk(now)
    ensures VerifyCall.Examine(env, env.hash(phone), Get(WithOtp(env, db, phone, now).otp, env.hash(phone)),
                               GenerateOtp(0), now).Right?
  {
    ExpiryStamp(env, now, OTP_VALIDITY);
  }

  function DrawnFor(k: nat): Drawn {
    Drawn(Owner(), Name(k), Name(k), Name(k), Name(k))
  }

  lemma OwnerIsUuid()
    ensures IsUuid(Owner())
  {
  }

  /** The tables after the login with number `k`, which removes nothing. */
  function WithLogin(env: Env, db: Db, phone: string, row: string, k: nat, now: int): Db {
    Db(db.otp[env.hash(phone) := NewOtp(env, phone, GenerateOtp(0), now).(status := Verified)], db.users,
       db.sessions[Name(k) := RungOf(env, k, row, now)])
  }

  lemma LoginIsOutcome(env: Env, db: Db, phone: string, row: string, k: nat, now: int)
    requires Name(k) !in db.sessions && LoginTodo(db.sessions, row, Name(k), Stamp(env, now), [])
    ensures var before := WithOtp(env, db, phone, now);
            LoginOutcome(env, before, WithLogin(env, db, phone, row, k, now), env.hash(phone),
                         before.otp[env.hash(phone)], row, Name(k), DrawnFor(k), map[], now,
                         Ok(VerifyResult(row, Name(k), Name(k), false)), {})
  {
    assert Handled([], map[]) == [] && IdSet([]) == {} && db.sessions - {} == db.sessions;
  }

  // ---------------------------------------------------------------- the calls of one login

  const ANSWERED := RequestReplies(Delivered, Delivered)

  /** Redis answers every question. */
  function Answers(): VerifyReplies {
    VerifyReplies(VerifyCall.ANSWERED, map[])
  }

  function Asks(phone: string): ServiceCall {
    Request(phone, "", 0, ANSWERED)
  }

  function Logs(phone: string, k: nat): ServiceCall {
    Verify(phone, GenerateOtp(0), Name(k), DrawnFor(k), Answers())
  }

  /** Every counter has run out, and nobody is locked out. */
  ghost predicate Idle(sys: Sys, now: int) {
    (forall key | key in sys.counters :: sys.counters[key].expireAt <= now) && sys.locks == map[]
  }

  function FirstOf(now: int): RateLimit.Counter {
    RateLimit.Counter(1, now + VerifyCall.WINDOW)
  }

  /** The state after an OTP request that finds every counter run out. */
  function AfterAsking(env: Env, sys: Sys, phone: string, now: int): Sys {
    Sys(WithOtp(env, sys.db, phone, now),
        sys.counters[RequestKey(env.hash(phone)) := FirstOf(now)][IpKey("") := FirstOf(now)], sys.locks)
  }

  lemma AskingIsStep(env: Env, sys: Sys, phone: string, now: int)
    requires ValidPhone(phone) && ClockOk(now) && Idle(sys, now)
    requires env.hash(phone) in sys.db.otp ==> sys.db.otp[env.hash(phone)].status.Verified?
    ensures SysStep(env, sys, Timed(Asks(phone), now), AfterAsking(env, sys, phone, now))
  {
    KeysDiffer(env.hash(phone), env.hash(phone), "");
    assert RequestOutcome(env, sys, AfterAsking(env, sys, phone, now), phone, "", 0, ANSWERED, now,
                          Ok(now + OTP_VALIDITY * NANOS));
  }

  /** The state after a verification that leads to the tables `db`. */
  function AfterLogging(env: Env, sys: Sys, phone: string, now: int, db: Db): Sys {
    Sys(db, AfterAsking(env, sys, phone, now).counters[VerifyKey(env.hash(phone)) := FirstOf(now)], sys.locks)
  }

  /** After the request, the fresh code passes the limit, the lockout and the checks. */
  lemma FreshCodePasses(env: Env, sys: Sys, phone: string, now: int)
    requires TextOk(env) && ClockOk(now) && Idle(sys, now)
    ensures var hash, acc := env.hash(phone), AccountOf(AfterAsking(env, sys, phone, now), env.hash(phone));
            && RateLimit.Incr(acc.counter, now, VerifyCall.WINDOW) == FirstOf(now)
            && VerifyCall.Judge(env, hash, acc, GenerateOtp(0), VerifyCall.ANSWERED, now).Right?
  {
    KeysDiffer(env.hash(phone), env.hash(phone), "");
    FreshCodeIsRight(env, sys.db, phone, now);
  }

  /** A verification with the fresh code, if it can be completed, is a step. */
  lemma LoggingIsStep(env: Env, sys: Sys, phone: string, k: nat, now: int, db: Db, r: Result<VerifyResult>)
    requires TextOk(env) && ValidPhone(phone) && ClockOk(now) && Idle(sys, now)
    requires var before := WithOtp(env, sys.db, phone, now);
             Completion(env, before, db, phone, before.otp[env.hash(phone)], Name(k), DrawnFor(k), map[], now, r, {})
    ensures SysStep(env, AfterAsking(env, sys, phone, now), Timed(Logs(phone, k), now),
                    AfterLogging(env, sys, phone, now, db))
  {
    var before, after := AfterAsking(env, sys, phone, now), AfterLogging(env, sys, phone, now, db);
    FreshCodePasses(env, sys, phone, now);
    OwnerIsUuid();
    assert VerifyOutcome(env, before, after, phone, GenerateOtp(0), Name(k), DrawnFor(k), Answers(), now, r, {});
  }

  lemma StaysIdle(env: Env, sys: Sys, phone: string, now: int, db: Db)
    requires Idle(sys, now)
    ensures Idle(AfterLogging(env, sys, phone, now, db), now + VerifyCall.WINDOW)
  {
  }

  // ---------------------------------------------------------------- runs of such logins

  /** An OTP request and a verification at each of these times. */
  function LadderCalls(phone: string, times: seq<int>): (calls: seq<Timed>)
    ensures |calls| == 2 * |times|
  {
    if times == [] then []
    else
      var k := |times| - 1;
      LadderCalls(phone, times[..k]) + [Timed(Asks(phone), times[k]), Timed(Logs(phone, k), times[k])]
  }

  lemma {:induction false} LadderCallAt(phone: string, times: seq<int>, i: nat)
    requires i < 2 * |times|
    ensures LadderCalls(phone, times)[i].now == times[i / 2]
    ensures LadderCalls(phone, times)[i].call == if i % 2 == 0 then Asks(phone) else Logs(phone, i / 2)
  {
    var k := |times| - 1;
    if i < 2 * k {
      LadderCallAt(phone, times[..k], i);
    }
  }

  /** The logins are at least one limiter window apart. */
  ghost predicate Spaced(times: seq<int>) {
    forall i, j :: 0 <= i < j < |times| ==> times[i] + VerifyCall.WINDOW <= times[j]
  }

  /** A run of the service that consists of these logins, the first at `times[0]`. */
  ghost predicate Climbs(env: Env, phone: string, syss: seq<Sys>, rows: seq<string>, times: seq<int>) {
    && times != [] && Spaced(times)
    && IsServiceRun(env, syss, LadderCalls(phone, times))
    && Ladder(env, phone, syss[2 * |times|].db, rows, times)
    && Idle(syss[2 * |times|], times[|times| - 1] + VerifyCall.WINDOW)
  }

  lemma TwoMoreCalls(env: Env, phone: string, syss: seq<Sys>, times: seq<int>, now: int, mid: Sys, end: Sys)
    requires IsServiceRun(env, syss, LadderCalls(phone, times)) && (times != [] ==> times[|times| - 1] <= now)
    requires SysStep(env, syss[2 * |times|], Timed(Asks(phone), now), mid)
    requires SysStep(env, mid, Timed(Logs(phone, |times|), now), end)
    ensures IsServiceRun(env, syss + [mid, end], LadderCalls(phone, times + [now]))
  {
    var calls, n := LadderCalls(phone, times), 2 * |times|;
    assert (times + [now])[..|times|] == times;
    if times != [] {
      LadderCallAt(phone, times, n - 1);
    }
    AppendCall(env, syss, calls, Timed(Asks(phone), now), mid);
    AppendCall(env, syss + [mid], calls + [Timed(Asks(phone), now)], Timed(Logs(phone, |times|), now), end);
    assert syss + [mid] + [end] == syss + [mid, end];
    assert calls + [Timed(Asks(phone), now)] + [Timed(Logs(phone, |times|), now)] == LadderCalls(phone, times + [now]);
  }

  /** The two calls of one more login, filed under `row`, when that row has at most four sessions that can be listed. */
  lemma ClimbSteps(env: Env, phone: string, sys: Sys, rows: seq<string>, times: seq<int>, row: string, now: int)
    returns (mid: Sys, end: Sys)
    requires TextOk(env) && ValidPhone(phone) && ClockOk(now) && Ladder(env, phone, sys.db, rows, times)
    requires Idle(sys, now) && (row == Owner() || row == SentinelKey(phone))
    requires |Listable(sys.db.sessions, row, Stamp(env, now))| < MAX_SESSIONS_PER_USER
    ensures SysStep(env, sys, Timed(Asks(phone), now), mid)
    ensures SysStep(env, mid, Timed(Logs(phone, |times|), now), end)
    ensures Ladder(env, phone, end.db, rows + [row], times + [now]) && Idle(end, now + VerifyCall.WINDOW)
  {
    var k := |rows|;
    var db := WithLogin(env, sys.db, phone, row, k, now);
    RungsAreKeyed(env, phone, sys.db, rows, times);
    NothingToRemove(sys.db.sessions, row, Name(k), Stamp(env, now));
    LoginIsOutcome(env, sys.db, phone, row, k, now);
    AskingIsStep(env, sys, phone, now);
    LoggingIsStep(env, sys, phone, k, now, db, Ok(VerifyResult(row, Name(k), Name(k), false)));
    StaysIdle(env, sys, phone, now, db);
    LadderGrows(env, phone, sys.db, rows, times, row, now);
    mid, end := AfterAsking(env, sys, phone, now), AfterLogging(env, sys, phone, now, db);
  }

  lemma Climb(env: Env, phone: string, syss: seq<Sys>, rows: seq<string>, times: seq<int>, row: string, now: int)
    returns (syss': seq<Sys>)
    requires TextOk(env) && ValidPhone(phone) && ClockOk(now) && Climbs(env, phone, syss, rows, times)
    requires times[|times| - 1] + VerifyCall.WINDOW <= now && (row == Owner() || row == SentinelKey(phone))
    requires |Listable(syss[2 * |times|].db.sessions, row, Stamp(env, now))| < MAX_SESSIONS_PER_USER
    ensures Climbs(env, phone, syss', rows + [row], times + [now])
  {
    var mid, end := ClimbSteps(env, phone, syss[2 * |times|], rows, times, row, now);
    syss' := syss + [mid, end];
    TwoMoreCalls(env, phone, syss, times, now, mid, end);
    SpacedOn(times, now);
  }

  lemma SpacedOn(times: seq<int>, now: int)
    requires times != [] && Spaced(times) && times[|times| - 1] + VerifyCall.WINDOW <= now
    ensures Spaced(times + [now])
  {
  }

  lemma RungsAreKeyed(env: Env, phone: string, db: Db, rows: seq<string>, times: seq<int>)
    requires Ladder(env, phone, db, rows, times)
    ensures Stores.KeyedById(db.sessions) && Name(|rows|) !in db.sessions
    ensures forall id | id in db.sessions :: db.sessions[id].deviceId != Name(|rows|)
  {
    forall id | id in db.sessions
      ensures db.sessions[id].id == id && db.sessions[id].deviceId == id && id != Name(|rows|)
    {
      var i: nat :| i < |rows| && id == Name(i);
      assert IsRung(env, db, i, rows[i], times[i]);
      NamesDiffer(i, |rows|);
    }
  }

  lemma LadderGrows(env: Env, phone: string, db: Db, rows: seq<string>, times: seq<int>, row: string, now: int)
    requires Ladder(env, phone, db, rows, times)
    ensures Ladder(env, phone, WithLogin(env, db, phone, row, |rows|, now), rows + [row], times + [now])
  {
    var db', k := WithLogin(env, db, phone, row, |rows|, now), |rows|;
    assert Names(0, k + 1) == Names(0, k) + {Name(k)};
    forall i: nat | i < k + 1
      ensures IsRung(env, db', i, (rows + [row])[i], (times + [now])[i])
    {
      if i < k {
        assert IsRung(env, db, i, rows[i], times[i]);
        NamesDiffer(i, k);
      }
    }
  }

  // ---------------------------------------------------------------- such runs are strict

  lemma PairsDiffer(env: Env, phone: string, at: int, later: int)
    requires TextOk(env) && ClockOk(at) && ClockOk(later) && at + VerifyCall.WINDOW <= later
    ensures PairOf(env, phone, 0, at) != PairOf(env, phone, 0, later)
  {
    ExpiryStamp(env, at, OTP_VALIDITY);
    ExpiryStamp(env, later, OTP_VALIDITY);
    assert SecondsOf(at) < SecondsOf(later);
    assert env.read(env.text(SecondsOf(at) + OTP_VALIDITY)) == Some(SecondsOf(at) + OTP_VALIDITY);
    assert env.read(env.text(SecondsOf(later) + OTP_VALIDITY)) == Some(SecondsOf(later) + OTP_VALIDITY);
  }

  lemma IssuesDiffer(env: Env, phone: string, dbs: seq<Db>, times: seq<int>, i: nat, j: nat)
    requires TextOk(env) && Spaced(times) && |dbs| == 2 * |times| + 1 && i < j < 2 * |times|
    requires forall t | t in times :: ClockOk(t)
    ensures var calls := LadderCalls(phone, times);
            IssuedAtCall(env, dbs, calls, i) !! IssuedAtCall(env, dbs, calls, j)
  {
    LadderCallAt(phone, times, i);
    LadderCallAt(phone, times, j);
    if i % 2 == 0 && j % 2 == 0 {
      PairsDiffer(env, phone, times[i / 2], times[j / 2]);
    }
  }

  /** The logins make a benign run of the protocol. */
  lemma LadderIsBenign(env: Env, phone: string, syss: seq<Sys>, rows: seq<string>, times: seq<int>)
    returns (states: seq<State>, steps: seq<Protocol.Step>)
    requires TextOk(env) && Climbs(env, phone, syss, rows, times) && forall t | t in times :: ClockOk(t)
    ensures IsBenignRun(env, states, steps)
    ensures states[|steps|].w.db == syss[2 * |times|].db && states[|steps|].w.now == times[|times| - 1]
  {
    var dbs, calls := Dbs(syss), LadderCalls(phone, times);
    ServiceRunIsSerialRun(env, syss, calls);
    assert IsStrict(env, dbs, calls) by {
      forall i: nat, j: nat | i < j < |calls|
        ensures IssuedAtCall(env, dbs, calls, i) !! IssuedAtCall(env, dbs, calls, j)
      {
        IssuesDiffer(env, phone, dbs, times, i, j);
      }
      forall i: nat | i < |calls|
        ensures !RefreshesAtExpiry(env, dbs, calls, i)
      {
        LadderCallAt(phone, times, i);
      }
    }
    LadderCallAt(phone, times, |calls| - 1);
    states, steps := SerialRunIsProtocolRun(env, true, dbs, calls);
  }

  // ---------------------------------------------------------------- ten sessions of one phone

  /** The first five logins are filed under the user, the others under the sentinel. */
  function RowOf(phone: string, i: nat): string {
    if i < MAX_SESSIONS_PER_USER then Owner() else SentinelKey(phone)
  }

  function Rows(phone: string, k: nat): seq<string> {
    seq(k, i requires 0 <= i < k => RowOf(phone, i))
  }

  /** The second of login number `i`: one login per limiter window, from the epoch on. */
  function SecondAt(i: nat): nat {
    i * OTP_RATE_LIMIT_WINDOW
  }

  function Times(k: nat): seq<int> {
    seq(k, i requires 0 <= i < k => SecondAt(i) * NANOS)
  }

  lemma WholeSecond(i: nat)
    requires i <= REFRESH_TOKEN_LIFETIME + SecondAt(10)
    ensures SecondsOf(i * NANOS) == i && ClockOk(i * NANOS)
  {
    DivisionIsUnique(i * NANOS, NANOS, i, 0);
  }

  /** The tables after the first login, which is a registration. */
  function Registered(env: Env, phone: string): Db {
    Db(map[env.hash(phone) := NewOtp(env, phone, GenerateOtp(0), 0).(status := Verified)],
       map[Owner() := User(phone, Stamp(env, 0), Stamp(env, 0))][SentinelKey(phone) := Sentinel(phone, Owner())],
       map[Name(0) := RungOf(env, 0, Owner(), 0)])
  }

  lemma RegisteredIsLadder(env: Env, phone: string)
    ensures Ladder(env, phone, Registered(env, phone), Rows(phone, 1), Times(1))
  {
    OwnerIsUuid();
    SentinelKeyIsNoUuid(phone);
    assert Names(0, 1) == {Name(0)};
    assert IsRung(env, Registered(env, phone), 0, Owner(), 0);
  }

  /** The two calls of the first login. */
  lemma FirstSteps(env: Env, phone: string) returns (mid: Sys, end: Sys)
    requires TextOk(env) && ValidPhone(phone)
    ensures SysStep(env, NOTHING, Timed(Asks(phone), 0), mid) && SysStep(env, mid, Timed(Logs(phone, 0), 0), end)
    ensures end.db == Registered(env, phone) && Idle(end, VerifyCall.WINDOW)
  {
    var db := Registered(env, phone);
    WholeSecond(0);
    AskingIsStep(env, NOTHING, phone, 0);
    LoggingIsStep(env, NOTHING, phone, 0, 0, db, Ok(VerifyResult(Owner(), Name(0), Name(0), true)));
    StaysIdle(env, NOTHING, phone, 0, db);
    mid, end := AfterAsking(env, NOTHING, phone, 0), AfterLogging(env, NOTHING, phone, 0, db);
  }

  lemma FirstClimb(env: Env, phone: string) returns (syss: seq<Sys>)
    requires TextOk(env) && ValidPhone(phone)
    ensures Climbs(env, phone, syss, Rows(phone, 1), Times(1))
  {
    var mid, end := FirstSteps(env, phone);
    RegisteredIsLadder(env, phone);
    TwoMoreCalls(env, phone, [NOTHING], [], 0, mid, end);
    syss := [NOTHING] + [mid, end];
    assert [] + [0] == Times(1);
  }

  /** A row never has more than four sessions when the next one is filed under it. */
  lemma RowHasRoom(env: Env, phone: string, db: Db, k: nat, now: string)
    requires Ladder(env, phone, db, Rows(phone, k), Times(k)) && k < 2 * MAX_SESSIONS_PER_USER
    ensures |Listable(db.sessions, RowOf(phone, k), now)| < MAX_SESSIONS_PER_USER
  {
    var lo := if k < MAX_SESSIONS_PER_USER then 0 else MAX_SESSIONS_PER_USER;
    forall id | id in Listable(db.sessions, RowOf(phone, k), now)
      ensures id in Names(lo, k)
    {
      var i: nat :| i < k && id == Name(i);
      assert IsRung(env, db, i, Rows(phone, k)[i], Times(k)[i]);
      OwnerIsUuid();
      SentinelKeyIsNoUuid(phone);
    }
    NamesSize(lo, k);
    SubsetSize(Listable(db.sessions, RowOf(phone, k), now), Names(lo, k));
  }

  lemma RowsAppend(phone: string, k: nat)
    ensures Rows(phone, k + 1) == Rows(phone, k) + [RowOf(phone, k)]
    ensures Times(k + 1) == Times(k) + [SecondAt(k) * NANOS]
  {
  }

  lemma NextClimb(env: Env, phone: string, syss: seq<Sys>, k: nat) returns (syss': seq<Sys>)
    requires TextOk(env) && ValidPhone(phone) && 1 <= k < 2 * MAX_SESSIONS_PER_USER
    requires Climbs(env, phone, syss, Rows(phone, k), Times(k))
    ensures Climbs(env, phone, syss', Rows(phone, k + 1), Times(k + 1))
  {
    var now := SecondAt(k) * NANOS;
    WholeSecond(SecondAt(k));
    RowHasRoom(env, phone, syss[2 * k].db, k, Stamp(env, now));
    syss' := Climb(env, phone, syss, Rows(phone, k), Times(k), RowOf(phone, k), now);
    RowsAppend(phone, k);
  }

  lemma {:induction false} ClimbTo(env: Env, phone: string, k: nat) returns (syss: seq<Sys>)
    requires TextOk(env) && ValidPhone(phone) && 1 <= k <= 2 * MAX_SESSIONS_PER_USER
    ensures Climbs(env, phone, syss, Rows(phone, k), Times(k))
  {
    if k == 1 {
      syss := FirstClimb(env, phone);
    } else {
      syss := ClimbTo(env, phone, k - 1);
      syss := NextClimb(env, phone, syss, k - 1);
    }
  }

  lemma TimesAreOk(k: nat)
    requires k <= 10
    ensures forall t | t in Times(k) :: ClockOk(t)
  {
    forall i: nat | i < k
      ensures ClockOk(Times(k)[i])
    {
      WholeSecond(SecondAt(i));
    }
  }

  lemma RungIsUnexpired(env: Env, db: Db, i: nat, row: string, now: int)
    requires IsRung(env, db, i, row, SecondAt(i) * NANOS) && i <= 10
    requires now < (SecondAt(i) + REFRESH_TOKEN_LIFETIME) * NANOS
    ensures now < db.sessions[Name(i)].ttl * NANOS
  {
    WholeSecond(SecondAt(i));
    ExpiryStamp(env, SecondAt(i) * NANOS, REFRESH_TOKEN_LIFETIME);
  }

  lemma AllUnexpired(env: Env, phone: string, w: World, k: nat)
    requires Ladder(env, phone, w.db, Rows(phone, k), Times(k)) && k <= 10 && w.now <= SecondAt(10) * NANOS
    ensures UnexpiredOfPhone(w, phone) == Names(0, k)
  {
    forall id | id in Names(0, k)
      ensures id in UnexpiredOfPhone(w, phone)
    {
      var i: nat :| i < k && id == Name(i);
      assert IsRung(env, w.db, i, Rows(phone, k)[i], Times(k)[i]);
      RungIsUnexpired(env, w.db, i, RowOf(phone, i), w.now);
    }
  }

  /** The bound of ten sessions for a phone is attained, for every phone: there is a run of the service, limits
      included, whose tables are those of a benign run of the protocol and hold ten unexpired sessions of the phone. */
  lemma PhoneLimitIsAttained(env: Env, phone: string)
    returns (syss: seq<Sys>, calls: seq<Timed>, states: seq<State>, steps: seq<Protocol.Step>)
    requires TextOk(env) && ValidPhone(phone)
    ensures IsServiceRun(env, syss, calls) && IsBenignRun(env, states, steps)
    ensures states[|steps|].w.db == syss[|calls|].db
    ensures |UnexpiredOfPhone(states[|steps|].w, phone)| == 2 * MAX_SESSIONS_PER_USER
  {
    var k := 2 * MAX_SESSIONS_PER_USER;
    syss := ClimbTo(env, phone, k);
    calls := LadderCalls(phone, Times(k));
    TimesAreOk(k);
    states, steps := LadderIsBenign(env, phone, syss, Rows(phone, k), Times(k));
    AllUnexpired(env, phone, states[|steps|].w, k);
    NamesSize(0, k);
  }

  // ---------------------------------------------------------------- a refresh at the very expiry

  const EXPIRY := REFRESH_TOKEN_LIFETIME * NANOS

  /** At the instant at which the first of five sessions expires, the other four are listed and it is not. */
  lemma FirstIsNotListed(env: Env, phone: string, db: Db)
    requires TextOk(env) && Ladder(env, phone, db, Rows(phone, 5), Times(5))
    ensures |Listable(db.sessions, Owner(), Stamp(env, EXPIRY))| < MAX_SESSIONS_PER_USER
  {
    WholeSecond(REFRESH_TOKEN_LIFETIME);
    forall id | id in Listable(db.sessions, Owner(), Stamp(env, EXPIRY))
      ensures id in Names(1, 5)
    {
      var i: nat :| i < 5 && id == Name(i);
      assert IsRung(env, db, i, Rows(phone, 5)[i], Times(5)[i]);
      WholeSecond(SecondAt(i));
      ExpiryStamp(env, SecondAt(i) * NANOS, REFRESH_TOKEN_LIFETIME);
      assert TextLess(env.text(REFRESH_TOKEN_LIFETIME), env.text(SecondAt(i) + REFRESH_TOKEN_LIFETIME)) <==> i > 0;
    }
    NamesSize(1, 5);
    SubsetSize(Listable(db.sessions, Owner(), Stamp(env, EXPIRY)), Names(1, 5));
  }

  function SixRows(phone: string): seq<string> {
    Rows(phone, 5) + [Owner()]
  }

  function SixTimes(): seq<int> {
    Times(5) + [EXPIRY]
  }

  /** Five unexpired sessions and a sixth at its very expiry. */
  lemma SixthAtItsExpiry(env: Env, phone: string) returns (syss: seq<Sys>)
    requires TextOk(env) && ValidPhone(phone)
    ensures Climbs(env, phone, syss, SixRows(phone), SixTimes())
  {
    syss := ClimbTo(env, phone, 5);
    WholeSecond(REFRESH_TOKEN_LIFETIME);
    FirstIsNotListed(env, phone, syss[10].db);
    syss := Climb(env, phone, syss, Rows(phone, 5), Times(5), Owner(), EXPIRY);
  }

  /** Each of the six is unexpired once the first is refreshed. */
  lemma SixUnexpired(env: Env, phone: string, w: World)
    requires TextOk(env) && w.now == EXPIRY && Ladder(env, phone, w.db, SixRows(phone), SixTimes())
    ensures Name(0) in w.db.sessions && w.db.sessions[Name(0)] == RungOf(env, 0, Owner(), 0)
    ensures ExpiresNow(env, w.db.sessions[Name(0)].expiresAt, w.now)
    ensures ActiveIds(RefreshSession(env, w, Name(0), ""), Owner()) == Names(0, 6)
  {
    var rows, times := SixRows(phone), SixTimes();
    WholeSecond(0);
    WholeSecond(REFRESH_TOKEN_LIFETIME);
    ExpiryStamp(env, 0, REFRESH_TOKEN_LIFETIME);
    ExpiryStamp(env, EXPIRY, REFRESH_TOKEN_LIFETIME);
    assert IsRung(env, w.db, 0, rows[0], times[0]);
    var w' := RefreshSession(env, w, Name(0), "");
    forall id | id in Names(0, 6)
      ensures id in ActiveIds(w', Owner())
    {
      var i: nat :| i < 6 && id == Name(i);
      assert IsRung(env, w.db, i, rows[i], times[i]);
      NamesDiffer(i, 0);
      if 0 < i < 5 {
        RungIsUnexpired(env, w.db, i, Owner(), EXPIRY);
      }
    }
  }

  lemma RefreshIsStep(env: Env, sys: Sys, after: Sys, refresh: Timed)
    requires ClockOk(refresh.now) && refresh.call.Refresh?
    requires var c := refresh.call;
             && RefreshChain.Decide(env, sys.db.sessions, c.id, c.device, c.token, refresh.now).Rotate?
             && c.id in sys.db.sessions
             && after == sys.(db := sys.db.(sessions :=
                  sys.db.sessions[c.id := Rotated(env, sys.db.sessions[c.id], c.next, refresh.now)]))
    ensures SysStep(env, sys, refresh, after)
  {
  }

  function LastRefresh(): Timed {
    Timed(ServiceCall.Refresh(Name(0), Name(0), Name(0), ""), EXPIRY)
  }

  /** The refresh of the first session, at its very expiry, is the next call. */
  lemma RefreshIsNext(env: Env, phone: string, syss: seq<Sys>, w: World) returns (after: Sys)
    requires TextOk(env) && Climbs(env, phone, syss, SixRows(phone), SixTimes())
    requires w.now == EXPIRY && w.db == syss[12].db
    ensures IsServiceRun(env, syss + [after], LadderCalls(phone, SixTimes()) + [LastRefresh()])
    ensures Name(0) in w.db.sessions && ExpiresNow(env, w.db.sessions[Name(0)].expiresAt, w.now)
    ensures after.db == RefreshSession(env, w, Name(0), "").db
  {
    SixUnexpired(env, phone, w);
    WholeSecond(REFRESH_TOKEN_LIFETIME);
    after := syss[12].(db := RefreshSession(env, w, Name(0), "").db);
    RefreshIsStep(env, syss[12], after, LastRefresh());
    LadderCallAt(phone, SixTimes(), 11);
    AppendCall(env, syss, LadderCalls(phone, SixTimes()), LastRefresh(), after);
  }

  lemma SixTimesAreOk()
    ensures forall t | t in SixTimes() :: ClockOk(t)
  {
    TimesAreOk(5);
    WholeSecond(REFRESH_TOKEN_LIFETIME);
  }

  /** The assumption that no refresh comes at the very expiry is needed: there is a run of the service, limits included,
      whose last call is a refresh at the very expiry of its session. Up to that call the run is benign and the user has
      at most five unexpired sessions; the refresh is accepted and leaves six. */
  lemma RefreshAtExpiryExceedsLimit(env: Env, phone: string)
    returns (syss: seq<Sys>, calls: seq<Timed>, states: seq<State>, steps: seq<Protocol.Step>, user: string)
    requires TextOk(env) && ValidPhone(phone)
    ensures IsServiceRun(env, syss, calls) && calls != [] && calls[|calls| - 1].call.Refresh?
    ensures IsBenignRun(env, states, steps)
    ensures var w, n := states[|steps|].w, |calls| - 1;
            && w.db == syss[n].db && w.now == calls[n].now && calls[n].call.id in w.db.sessions
            && ExpiresNow(env, w.db.sessions[calls[n].call.id].expiresAt, w.now)
            && |ActiveIds(w, user)| <= MAX_SESSIONS_PER_USER
            && |ActiveIds(w.(db := syss[n + 1].db), user)| == MAX_SESSIONS_PER_USER + 1
  {
    var front := SixthAtItsExpiry(env, phone);
    SixTimesAreOk();
    states, steps := LadderIsBenign(env, phone, front, SixRows(phone), SixTimes());
    var w := states[|steps|].w;
    var after := RefreshIsNext(env, phone, front, w);
    LimitAtEnd(env, states, steps, Owner());
    SixActive(env, phone, w, after.db);
    syss, calls, user := front + [after], LadderCalls(phone, SixTimes()) + [LastRefresh()], Owner();
  }

  lemma LimitAtEnd(env: Env, states: seq<State>, steps: seq<Protocol.Step>, user: string)
    requires TextOk(env) && IsBenignRun(env, states, steps)
    ensures |ActiveIds(states[|steps|].w, user)| <= MAX_SESSIONS_PER_USER
  {
    RunKeepsLimit(env, states, steps, |steps|);
  }

  lemma SixActive(env: Env, phone: string, w: World, db: Db)
    requires TextOk(env) && w.now == EXPIRY && Ladder(env, phone, w.db, SixRows(phone), SixTimes())
    requires Name(0) in w.db.sessions && db == RefreshSession(env, w, Name(0), "").db
    ensures |ActiveIds(w.(db := db), Owner())| == MAX_SESSIONS_PER_USER + 1
  {
    SixUnexpired(env, phone, w);
    NamesSize(0, 6);
    assert w.(db := db) == RefreshSession(env, w, Name(0), "");
  }
}
