/** Sequences of whole calls on the objects, with their limits, lockouts and Redis answers. Their tables make a serial
    run, and what concerns one phone makes a run of the checks of a verification; so the guessing bounds hold of the
    objects. */
module ServiceRuns {
  import opened Domain
  import opened Rfc3339
  import opened Otp
  import opened Tables
  import opened Records
  import opened Outcomes
  import opened SerialCalls
  import VerifyCall

  ghost predicate SysStep(env: Env, before: Sys, call: Timed, after: Sys) {
    && Performs(env, before, call.call, call.now, after)
    && ClockOk(call.now) && (call.call.Verify? ==> IsUuid(call.call.drawn.userId))
  }

  const NOTHING := Sys(EMPTY, map[], map[])

  /** Whole calls, one after the other, from empty tables and no keys in Redis. */
  ghost predicate IsServiceRun(env: Env, syss: seq<Sys>, calls: seq<Timed>) {
    && |syss| == |calls| + 1
    && syss[0] == NOTHING
    && (forall i {:trigger SysStep(env, syss[i], calls[i], syss[i + 1])} ::
          0 <= i < |calls| ==> SysStep(env, syss[i], calls[i], syss[i + 1]))
    && (forall i, j :: 0 <= i < j < |calls| ==> calls[i].now <= calls[j].now)
  }

  lemma AppendCall(env: Env, syss: seq<Sys>, calls: seq<Timed>, call: Timed, after: Sys)
    requires IsServiceRun(env, syss, calls) && SysStep(env, syss[|calls|], call, after)
    requires calls != [] ==> calls[|calls| - 1].now <= call.now
    ensures IsServiceRun(env, syss + [after], calls + [call])
  {
    var syss', calls' := syss + [after], calls + [call];
    forall i | 0 <= i < |calls'|
      ensures SysStep(env, syss'[i], calls'[i], syss'[i + 1])
    {
      if i < |calls| {
        assert SysStep(env, syss[i], calls[i], syss[i + 1]);
      }
    }
  }

  function Dbs(syss: seq<Sys>): (dbs: seq<Db>)
    ensures |dbs| == |syss|
  {
    seq(|syss|, i requires 0 <= i < |syss| => syss[i].db)
  }

  /** The tables of a service run are those of a serial run, and so of a run of the protocol. */
  lemma ServiceRunIsSerialRun(env: Env, syss: seq<Sys>, calls: seq<Timed>)
    requires IsServiceRun(env, syss, calls)
    ensures IsSerialRun(env, Dbs(syss), calls)
  {
    var dbs := Dbs(syss);
    forall i | 0 <= i < |calls|
      ensures CallStep(env, dbs[i], calls[i], dbs[i + 1])
    {
      assert SysStep(env, syss[i], calls[i], syss[i + 1]);
      PerformsIsEffect(env, syss[i], calls[i].call, calls[i].now, syss[i + 1]);
    }
  }

  // ---------------------------------------------------------------- what concerns one phone

  /** What a call of the service is for the account of one phone: nothing, if it is about another phone or does not get
      as far as the limiter or the OTP table. */
  function CallFor(env: Env, phone: string, before: Sys, call: Timed, after: Sys): Option<VerifyCall.Call> {
    var hash := env.hash(phone);
    match call.call
    case Request(p, ip, n, limits) =>
      if p == phone && n < Pow10(CODE_WIDTH) && PassesPhoneLimit(env, before, p, limits.phone, call.now)
         && PassesIpLimit(before, ip, limits.ip, call.now)
      then Some(VerifyCall.Request(call.now, GenerateOtp(n))) else None
    case Verify(p, candidate, device, _, replies) =>
      if p == phone && device != ""
      then Some(VerifyCall.Verify(call.now, candidate, hash in after.db.otp && after.db.otp[hash].status.Verified?,
                                  replies.gate))
      else None
    case ExpireOtp(h) =>
      if h == hash && h in before.db.otp && h !in after.db.otp then Some(VerifyCall.Remove(call.now)) else None
    case _ => None
  }

  /** The account of `hash` is the same in both states. */
  ghost predicate SameAccount(before: Sys, after: Sys, hash: string) {
    AccountOf(after, hash) == AccountOf(before, hash)
  }

  /** The account of the phone after the call is what the call, as seen by that account, makes of it. */
  ghost predicate Follows(env: Env, phone: string, before: Sys, call: Timed, after: Sys) {
    var hash, c := env.hash(phone), CallFor(env, phone, before, call, after);
    if c.None? then SameAccount(before, after, hash)
    else forall t: VerifyCall.Track | t.acc == AccountOf(before, hash) ::
           VerifyCall.Step(env, phone, t, c.value).acc == AccountOf(after, hash)
  }

  lemma RequestFollows(env: Env, phone: string, before: Sys, call: Timed, after: Sys)
    requires CollisionFree(env) && ValidPhone(phone) && call.call.Request? && SysStep(env, before, call, after)
    ensures Follows(env, phone, before, call, after)
  {
    var p, hash := call.call.phone, env.hash(phone);
    KeysDiffer(hash, env.hash(p), call.call.ip);
  }

  /** A verification touches the account of its own phone only. */
  lemma VerifyTouchesOwn(env: Env, before: Sys, after: Sys, call: ServiceCall, now: int, r: Result<VerifyResult>,
                         removed: set<string>, hash: string)
    requires call.Verify? && hash != env.hash(call.phone)
    requires VerifyOutcome(env, before, after, call.phone, call.candidate, call.device, call.drawn, call.replies, now,
                           r, removed)
    ensures SameAccount(before, after, hash)
  {
    var p, hash' := call.phone, env.hash(call.phone);
    KeysDiffer(hash, hash', "");
    if ValidPhone(p) && call.device != "" {
      var v := VerifyCall.Judge(env, hash', AccountOf(before, hash'), call.candidate, call.replies.gate, now);
      if v.Right? {
        CompletionConsumes(env, before.db, after.db, p, call.device, call.drawn, call.replies.revoke, now, r, removed);
      }
    }
  }

  /** What a verification makes of the account of its own phone. */
  lemma VerifySettles(env: Env, before: Sys, after: Sys, call: ServiceCall, now: int, r: Result<VerifyResult>,
                      removed: set<string>)
    requires call.Verify? && ValidPhone(call.phone) && call.device != ""
    requires VerifyOutcome(env, before, after, call.phone, call.candidate, call.device, call.drawn, call.replies, now,
                           r, removed)
    ensures var hash := env.hash(call.phone);
            var acc, acc', gate := AccountOf(before, hash), AccountOf(after, hash), call.replies.gate;
            var v := VerifyCall.Judge(env, hash, acc, call.candidate, gate, now);
            var settled := VerifyCall.Settle(acc, v, gate, now);
            && (!v.Right? ==> acc' == settled)
            && (v.Right? ==>
                  && settled.row.Some? && settled.row.value.status.Pending?
                  && (acc' == settled || acc' == settled.(row := Some(settled.row.value.(status := Verified)))))
  {
    var hash, p := env.hash(call.phone), call.phone;
    var v := VerifyCall.Judge(env, hash, AccountOf(before, hash), call.candidate, call.replies.gate, now);
    if v.Right? {
      CompletionConsumes(env, before.db, after.db, p, call.device, call.drawn, call.replies.revoke, now, r, removed);
    }
  }

  lemma VerifyFollows(env: Env, phone: string, before: Sys, call: Timed, after: Sys)
    requires CollisionFree(env) && ValidPhone(phone) && call.call.Verify? && SysStep(env, before, call, after)
    ensures Follows(env, phone, before, call, after)
  {
    var c := call.call;
    var r, removed :| VerifyOutcome(env, before, after, c.phone, c.candidate, c.device, c.drawn, c.replies, call.now, r,
                                    removed);
    if c.phone != phone {
      if ValidPhone(c.phone) {
        VerifyTouchesOwn(env, before, after, c, call.now, r, removed, env.hash(phone));
      }
    } else if c.device != "" {
      VerifySettles(env, before, after, c, call.now, r, removed);
    }
  }

  lemma CallFollows(env: Env, phone: string, before: Sys, call: Timed, after: Sys)
    requires CollisionFree(env) && ValidPhone(phone) && SysStep(env, before, call, after)
    ensures Follows(env, phone, before, call, after)
  {
    if call.call.Request? {
      RequestFollows(env, phone, before, call, after);
    } else if call.call.Verify? {
      VerifyFollows(env, phone, before, call, after);
    }
  }

  /** The calls that the first `n` calls of the service are for one phone. */
  function Projected(env: Env, phone: string, syss: seq<Sys>, calls: seq<Timed>, n: nat): seq<VerifyCall.Call>
    requires |syss| == |calls| + 1 && n <= |calls|
  {
    if n == 0 then []
    else
      var front := Projected(env, phone, syss, calls, n - 1);
      match CallFor(env, phone, syss[n - 1], calls[n - 1], syss[n])
      case None => front
      case Some(c) => front + [c]
  }

  /** Whatever the service does, the account of a phone is what the checks make of the calls that concern it. */
  lemma {:induction false} RunFollows(env: Env, phone: string, syss: seq<Sys>, calls: seq<Timed>, n: nat)
    requires CollisionFree(env) && ValidPhone(phone) && IsServiceRun(env, syss, calls) && n <= |calls|
    ensures VerifyCall.Replay(env, phone, Projected(env, phone, syss, calls, n)).acc
            == AccountOf(syss[n], env.hash(phone))
  {
    if n > 0 {
      var k := n - 1;
      RunFollows(env, phone, syss, calls, k);
      assert SysStep(env, syss[k], calls[k], syss[k + 1]);
      CallFollows(env, phone, syss[k], calls[k], syss[n]);
      ReplayNext(env, phone, syss, calls, k);
    }
  }

  /** One more call of the service is one more call for the account, or none. */
  lemma ReplayNext(env: Env, phone: string, syss: seq<Sys>, calls: seq<Timed>, k: nat)
    requires |syss| == |calls| + 1 && k < |calls|
    ensures var t := VerifyCall.Replay(env, phone, Projected(env, phone, syss, calls, k));
            var c := CallFor(env, phone, syss[k], calls[k], syss[k + 1]);
            VerifyCall.Replay(env, phone, Projected(env, phone, syss, calls, k + 1))
            == if c.None? then t else VerifyCall.Step(env, phone, t, c.value)
  {
    var front, c := Projected(env, phone, syss, calls, k), CallFor(env, phone, syss[k], calls[k], syss[k + 1]);
    if c.Some? {
      assert (front + [c.value])[..|front|] == front;
    }
  }

  lemma InOrderAppend(front: seq<VerifyCall.Call>, c: VerifyCall.Call)
    requires VerifyCall.InOrder(front) && ClockOk(c.now) && forall x | x in front :: x.now <= c.now
    ensures VerifyCall.InOrder(front + [c])
  {
    assert forall i | 0 <= i < |front| :: front[i] in front;
  }

  lemma CallForTime(env: Env, phone: string, before: Sys, call: Timed, after: Sys)
    ensures var c := CallFor(env, phone, before, call, after); c.Some? ==> c.value.now == call.now
  {
  }

  lemma {:induction false} ProjectedInOrder(env: Env, phone: string, syss: seq<Sys>, calls: seq<Timed>, n: nat)
    requires IsServiceRun(env, syss, calls) && n <= |calls|
    ensures VerifyCall.InOrder(Projected(env, phone, syss, calls, n))
    ensures forall c | c in Projected(env, phone, syss, calls, n) :: n > 0 && c.now <= calls[n - 1].now
  {
    if n > 0 {
      var k := n - 1;
      ProjectedInOrder(env, phone, syss, calls, k);
      assert SysStep(env, syss[k], calls[k], syss[k + 1]);
      var front, c := Projected(env, phone, syss, calls, k), CallFor(env, phone, syss[k], calls[k], syss[n]);
      CallForTime(env, phone, syss[k], calls[k], syss[n]);
      assert k > 0 ==> calls[k - 1].now <= calls[k].now;
      if c.Some? {
        InOrderAppend(front, c.value);
      }
    }
  }

  // ---------------------------------------------------------------- the guessing bounds

  /** What the checks say to a verification of this phone. */
  function VerdictFor(env: Env, phone: string, before: Sys, call: Timed): Option<VerifyCall.Verdict> {
    if call.call.Verify? && call.call.phone == phone && call.call.device != ""
    then Some(VerifyCall.Judge(env, env.hash(phone), AccountOf(before, env.hash(phone)), call.call.candidate,
                               call.call.replies.gate, call.now))
    else None
  }

  /** Call `i` compares its candidate with the stored OTP of the phone. */
  predicate Compares(env: Env, phone: string, syss: seq<Sys>, calls: seq<Timed>, i: nat)
    requires |syss| == |calls| + 1 && i < |calls|
  {
    var v := VerdictFor(env, phone, syss[i], calls[i]);
    v == Some(VerifyCall.Wrong) || v == Some(VerifyCall.Right)
  }

  predicate GuessesWrong(env: Env, phone: string, syss: seq<Sys>, calls: seq<Timed>, i: nat)
    requires |syss| == |calls| + 1 && i < |calls|
  {
    VerdictFor(env, phone, syss[i], calls[i]) == Some(VerifyCall.Wrong)
  }

  /** Call `i` stores a new OTP for the phone, or the stored one is removed. */
  predicate Renews(env: Env, phone: string, syss: seq<Sys>, calls: seq<Timed>, i: nat)
    requires |syss| == |calls| + 1 && i < |calls|
  {
    var c := CallFor(env, phone, syss[i], calls[i], syss[i + 1]);
    && c.Some?
    && (|| (c.value.Request? && MayCreateOtp(syss[i].db.otp, env.hash(phone), Stamp(env, calls[i].now)))
        || c.value.Remove?)
  }

  /** How many of the calls from number `from` to before `n` compare, and how many of them are wrong. */
  function Compared(env: Env, phone: string, syss: seq<Sys>, calls: seq<Timed>, from: nat, n: nat): nat
    requires |syss| == |calls| + 1 && from <= n <= |calls|
  {
    if n == from then 0
    else Compared(env, phone, syss, calls, from, n - 1) + OneIf(Compares(env, phone, syss, calls, n - 1))
  }

  function Wrong(env: Env, phone: string, syss: seq<Sys>, calls: seq<Timed>, from: nat, n: nat): nat
    requires |syss| == |calls| + 1 && from <= n <= |calls|
  {
    if n == from then 0
    else Wrong(env, phone, syss, calls, from, n - 1) + OneIf(GuessesWrong(env, phone, syss, calls, n - 1))
  }

  /** A call that does not renew the OTP adds to the counts of the account what it compares. */
  lemma CountsGrow(env: Env, phone: string, syss: seq<Sys>, calls: seq<Timed>, k: nat, t: VerifyCall.Track)
    requires |syss| == |calls| + 1 && k < |calls| && !Renews(env, phone, syss, calls, k)
    requires t.acc == AccountOf(syss[k], env.hash(phone))
    ensures var c := CallFor(env, phone, syss[k], calls[k], syss[k + 1]);
            var t' := if c.None? then t else VerifyCall.Step(env, phone, t, c.value);
            && t'.compared == t.compared + OneIf(Compares(env, phone, syss, calls, k))
            && t'.wrong == t.wrong + OneIf(GuessesWrong(env, phone, syss, calls, k))
  {
  }

  lemma {:induction false} CountsAreTracked(env: Env, phone: string, syss: seq<Sys>, calls: seq<Timed>,
                                            from: nat, n: nat)
    requires CollisionFree(env) && ValidPhone(phone) && IsServiceRun(env, syss, calls) && from <= n <= |calls|
    requires forall i: nat | from <= i < n :: !Renews(env, phone, syss, calls, i)
    ensures var t := VerifyCall.Replay(env, phone, Projected(env, phone, syss, calls, n));
            && Compared(env, phone, syss, calls, from, n) <= t.compared
            && Wrong(env, phone, syss, calls, from, n) <= t.wrong
  {
    if from < n {
      CountsAreTracked(env, phone, syss, calls, from, n - 1);
      CountIsTracked(env, phone, syss, calls, n - 1);
    }
  }

  /** One more call, in the counts of the account. */
  lemma CountIsTracked(env: Env, phone: string, syss: seq<Sys>, calls: seq<Timed>, k: nat)
    requires CollisionFree(env) && ValidPhone(phone) && IsServiceRun(env, syss, calls) && k < |calls|
    requires !Renews(env, phone, syss, calls, k)
    ensures var t := VerifyCall.Replay(env, phone, Projected(env, phone, syss, calls, k));
            var t' := VerifyCall.Replay(env, phone, Projected(env, phone, syss, calls, k + 1));
            && t'.compared == t.compared + OneIf(Compares(env, phone, syss, calls, k))
            && t'.wrong == t.wrong + OneIf(GuessesWrong(env, phone, syss, calls, k))
  {
    RunFollows(env, phone, syss, calls, k);
    CountsGrow(env, phone, syss, calls, k, VerifyCall.Replay(env, phone, Projected(env, phone, syss, calls, k)));
    ReplayNext(env, phone, syss, calls, k);
  }

  /** In every run of the service, whatever Redis answers and whatever else is called: while the stored OTP of a phone
      is not renewed, at most ten candidates are compared with it, and at most five of them are wrong. */
  lemma ServiceGuessBound(env: Env, phone: string, syss: seq<Sys>, calls: seq<Timed>, from: nat, n: nat)
    requires TextOk(env) && CollisionFree(env) && ValidPhone(phone) && IsServiceRun(env, syss, calls)
    requires from <= n <= |calls| && forall i: nat | from <= i < n :: !Renews(env, phone, syss, calls, i)
    ensures Compared(env, phone, syss, calls, from, n) <= 2 * MAX_OTP_VERIFY_ATTEMPTS
    ensures Wrong(env, phone, syss, calls, from, n) <= MAX_OTP_VERIFY_ATTEMPTS
  {
    CountsAreTracked(env, phone, syss, calls, from, n);
    ProjectedInOrder(env, phone, syss, calls, n);
    VerifyCall.GuessBound(env, phone, Projected(env, phone, syss, calls, n));
  }
}
