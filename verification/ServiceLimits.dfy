/** The limits and lockouts over runs of the service, said by the times of the calls and not by counters: which OTP
    requests and verifications are refused, how many can pass in an interval, and when a phone is locked. */
module ServiceLimits {
  import opened Domain
  import opened Rfc3339
  import opened Otp
  import opened Records
  import opened RateLimit
  import opened Outcomes
  import opened SerialCalls
  import opened ServiceRuns
  import VerifyCall

  /** The limiter window of fifteen minutes. */
  const WINDOW := 900 * NANOS

  // ---------------------------------------------------------------- which calls a counter has seen

  /** The counters that a call increments. */
  function CountedKeys(env: Env, before: Sys, call: Timed): set<string> {
    match call.call
    case Request(p, ip, n, limits) =>
      if !ValidPhone(p) then {}
      else
        (if limits.phone.Refused? then {} else {RequestKey(env.hash(p))})
        + (if PassesPhoneLimit(env, before, p, limits.phone, call.now) && !limits.ip.Refused? then {IpKey(ip)} else {})
    case Verify(p, _, device, _, replies) =>
      if !ValidPhone(p) || device == "" || replies.gate.limit.Refused? then {} else {VerifyKey(env.hash(p))}
    case _ => {}
  }

  /** Which calls are counted, by phone and address: a request for its phone unless Redis refuses, and for its address
      if it also passes the limit of the phone; a verification for its phone unless Redis refuses. */
  lemma CountedExactly(env: Env, before: Sys, call: Timed, hash: string, ip: string)
    ensures var c, counted := call.call, CountedKeys(env, before, call);
            && (RequestKey(hash) in counted <==>
                  c.Request? && ValidPhone(c.phone) && env.hash(c.phone) == hash && !c.limits.phone.Refused?)
            && (IpKey(ip) in counted <==>
                  && c.Request? && ValidPhone(c.phone) && c.ip == ip && !c.limits.ip.Refused?
                  && PassesPhoneLimit(env, before, c.phone, c.limits.phone, call.now))
            && (VerifyKey(hash) in counted <==>
                  && c.Verify? && ValidPhone(c.phone) && c.device != "" && env.hash(c.phone) == hash
                  && !c.replies.gate.limit.Refused?)
  {
    var c := call.call;
    if c.Request? {
      KeysDiffer(hash, env.hash(c.phone), ip);
      KeysDiffer(hash, env.hash(c.phone), c.ip);
      KeysDiffer(env.hash(c.phone), hash, ip);
      AddressKeysDiffer(ip, c.ip);
    } else if c.Verify? {
      KeysDiffer(hash, env.hash(c.phone), ip);
      KeysDiffer(env.hash(c.phone), hash, ip);
    }
  }

  lemma CounterStep(env: Env, before: Sys, call: Timed, after: Sys, key: string)
    requires SysStep(env, before, call, after)
    ensures Get(after.counters, key)
            == if key in CountedKeys(env, before, call) then Some(Incr(Get(before.counters, key), call.now, WINDOW))
               else Get(before.counters, key)
  {
    if call.call.Request? {
      var hash := env.hash(call.call.phone);
      KeysDiffer(hash, hash, call.call.ip);
    }
  }

  /** The times of the calls that the counter has seen before call number `n`. */
  function SeenTimes(env: Env, key: string, syss: seq<Sys>, calls: seq<Timed>, n: nat): seq<int>
    requires |syss| == |calls| + 1 && n <= |calls|
  {
    if n == 0 then []
    else
      var front := SeenTimes(env, key, syss, calls, n - 1);
      if key in CountedKeys(env, syss[n - 1], calls[n - 1]) then front + [calls[n - 1].now] else front
  }

  /** A counter is what the script makes of the calls it has seen. */
  lemma {:induction false} CounterFollows(env: Env, key: string, syss: seq<Sys>, calls: seq<Timed>, n: nat)
    requires IsServiceRun(env, syss, calls) && n <= |calls|
    ensures Get(syss[n].counters, key) == After(SeenTimes(env, key, syss, calls, n), WINDOW)
  {
    if n > 0 {
      var k := n - 1;
      CounterFollows(env, key, syss, calls, k);
      assert SysStep(env, syss[k], calls[k], syss[k + 1]);
      CounterStep(env, syss[k], calls[k], syss[n], key);
      var front := SeenTimes(env, key, syss, calls, k);
      assert (front + [calls[k].now])[..|front|] == front;
    }
  }

  lemma {:induction false} SeenInOrder(env: Env, key: string, syss: seq<Sys>, calls: seq<Timed>, n: nat)
    requires IsServiceRun(env, syss, calls) && n <= |calls|
    ensures IsTrace(SeenTimes(env, key, syss, calls, n))
    ensures forall t | t in SeenTimes(env, key, syss, calls, n) :: n > 0 && t <= calls[n - 1].now
  {
    if n > 0 {
      SeenInOrder(env, key, syss, calls, n - 1);
      assert n > 1 ==> calls[n - 2].now <= calls[n - 1].now;
      var front := SeenTimes(env, key, syss, calls, n - 1);
      assert forall i | 0 <= i < |front| :: front[i] in front;
    }
  }

  /** How many calls that the counter has seen lie in the window that call number `n`, if it counts, falls into. */
  function SeenInWindow(env: Env, key: string, syss: seq<Sys>, calls: seq<Timed>, n: nat): nat
    requires |syss| == |calls| + 1 && n < |calls|
  {
    var seen := SeenTimes(env, key, syss, calls, n);
    |seen| - WindowStart(seen + [calls[n].now], |seen|, WINDOW)
  }

  /** The counter after one more call, by the times. */
  lemma CountIsSeen(env: Env, key: string, syss: seq<Sys>, calls: seq<Timed>, n: nat)
    requires IsServiceRun(env, syss, calls) && n < |calls|
    ensures Incr(Get(syss[n].counters, key), calls[n].now, WINDOW).count == SeenInWindow(env, key, syss, calls, n) + 1
  {
    CounterFollows(env, key, syss, calls, n);
    var seen := SeenTimes(env, key, syss, calls, n);
    var times := seen + [calls[n].now];
    assert times[..|seen|] == seen && times[..|seen| + 1] == times;
    CounterInWindow(times, |seen|, WINDOW);
  }

  // ---------------------------------------------------------------- which calls are refused

  /** Which OTP requests are refused, exactly. The limit per phone: with an answer from Redis, a request is refused if
      and only if three requests that were counted for the phone lie in its window; without one it is unavailable. The
      limit per address comes next: with an answer, refused if and only if ten requests that were counted for the
      address lie in its window; without one the request goes on. A refused request changes no table. */
  lemma RequestRefusedExactly(env: Env, syss: seq<Sys>, calls: seq<Timed>, n: nat, r: Result<int>)
    requires IsServiceRun(env, syss, calls) && n < |calls| && calls[n].call.Request? && ValidPhone(calls[n].call.phone)
    requires var c := calls[n].call;
             && c.n < Pow10(CODE_WIDTH)
             && RequestOutcome(env, syss[n], syss[n + 1], c.phone, c.ip, c.n, c.limits, calls[n].now, r)
    ensures var c := calls[n].call;
            var mine := SeenInWindow(env, RequestKey(env.hash(c.phone)), syss, calls, n);
            var theirs := SeenInWindow(env, IpKey(c.ip), syss, calls, n);
            && (r == Err(ErrUnavailable) <==> !c.limits.phone.Delivered?)
            && (r == Err(ErrPhoneRateLimited) <==> c.limits.phone.Delivered? && mine >= 3)
            && (r == Err(ErrIpRateLimited) <==>
                  c.limits.phone.Delivered? && mine < 3 && c.limits.ip.Delivered? && theirs >= 10)
            && (r in {Err(ErrUnavailable), Err(ErrPhoneRateLimited), Err(ErrIpRateLimited)} ==>
                  syss[n + 1].db == syss[n].db)
  {
    var c := calls[n].call;
    CountIsSeen(env, RequestKey(env.hash(c.phone)), syss, calls, n);
    CountIsSeen(env, IpKey(c.ip), syss, calls, n);
  }

  /** Which verifications are refused before the OTP is looked at, exactly: those that Redis does not answer, those with
      five counted verifications of the phone in their window, and those of a locked phone. */
  lemma VerificationRefusedExactly(env: Env, syss: seq<Sys>, calls: seq<Timed>, n: nat)
    requires IsServiceRun(env, syss, calls) && n < |calls| && calls[n].call.Verify?
    ensures var c, hash := calls[n].call, env.hash(calls[n].call.phone);
            var mine := SeenInWindow(env, VerifyKey(hash), syss, calls, n);
            var gate := VerifyCall.Gate(AccountOf(syss[n], hash), c.replies.gate, calls[n].now);
            && (gate == Some(VerifyCall.Limited) <==> c.replies.gate.limit.Delivered? && mine >= 5)
            && (gate == Some(VerifyCall.LockedOut) <==>
                  && c.replies.gate.limit.Delivered? && mine < 5 && c.replies.gate.lock.Delivered?
                  && Lives(Get(syss[n].locks, LockKey(hash)), calls[n].now))
            && (gate.None? ==> c.replies.gate.limit.Delivered? && c.replies.gate.lock.Delivered? && mine < 5)
  {
    CountIsSeen(env, VerifyKey(env.hash(calls[n].call.phone)), syss, calls, n);
  }

  // ---------------------------------------------------------------- how many pass in an interval

  /** What is limited: storing an OTP for a phone hash, and comparing a candidate with it. */
  datatype Limited = Storing(hash: string) | Comparing(hash: string)

  function KeyOf(what: Limited): string {
    if what.Storing? then RequestKey(what.hash) else VerifyKey(what.hash)
  }

  function LimitOf(what: Limited): nat {
    if what.Storing? then 3 else 5
  }

  /** Call `n` does it. */
  predicate Does(env: Env, what: Limited, syss: seq<Sys>, calls: seq<Timed>, n: nat)
    requires |syss| == |calls| + 1 && n < |calls|
  {
    var c := calls[n].call;
    match what
    case Storing(hash) => c.Request? && env.hash(c.phone) == hash && syss[n + 1].db != syss[n].db
    case Comparing(hash) =>
      && c.Verify? && ValidPhone(c.phone) && c.device != "" && env.hash(c.phone) == hash
      && var v := VerifyCall.Judge(env, hash, AccountOf(syss[n], hash), c.candidate, c.replies.gate, calls[n].now);
         v.Wrong? || v.Right?
  }

  /** How many of the first `n` calls do it, at or after the instant `from`. */
  function Count(env: Env, what: Limited, syss: seq<Sys>, calls: seq<Timed>, from: int, n: nat): nat
    requires |syss| == |calls| + 1 && n <= |calls|
  {
    if n == 0 then 0
    else Count(env, what, syss, calls, from, n - 1)
         + OneIf(from <= calls[n - 1].now && Does(env, what, syss, calls, n - 1))
  }

  /** A call that does it is counted, and is among the first of its window. */
  lemma DoingIsAllowed(env: Env, what: Limited, syss: seq<Sys>, calls: seq<Timed>, n: nat)
    requires IsServiceRun(env, syss, calls) && n < |calls| && Does(env, what, syss, calls, n)
    ensures KeyOf(what) in CountedKeys(env, syss[n], calls[n])
    ensures SeenInWindow(env, KeyOf(what), syss, calls, n) < LimitOf(what)
  {
    var c := calls[n].call;
    assert SysStep(env, syss[n], calls[n], syss[n + 1]);
    if what.Storing? {
      var r :| RequestOutcome(env, syss[n], syss[n + 1], c.phone, c.ip, c.n, c.limits, calls[n].now, r);
      assert ValidPhone(c.phone);
      RequestRefusedExactly(env, syss, calls, n, r);
    } else {
      VerificationRefusedExactly(env, syss, calls, n);
    }
  }

  lemma {:induction false} AllowedFromPrefix(times: seq<int>, t: int, k: nat, limit: nat, window: nat, from: int)
    requires k <= |times|
    ensures AllowedFrom(times + [t], k, limit, window, from) == AllowedFrom(times, k, limit, window, from)
  {
    if k > 0 {
      AllowedFromPrefix(times, t, k - 1, limit, window, from);
      assert (times + [t])[..k] == times[..k];
    }
  }

  /** How many of the calls that the counter has seen are allowed, at or after the instant `from`. */
  function AllowedSeen(env: Env, what: Limited, syss: seq<Sys>, calls: seq<Timed>, from: int, n: nat): nat
    requires |syss| == |calls| + 1 && n <= |calls|
  {
    var seen := SeenTimes(env, KeyOf(what), syss, calls, n);
    AllowedFrom(seen, |seen|, LimitOf(what), WINDOW, from)
  }

  /** One more call adds to them what it does. */
  lemma DoingCounts(env: Env, what: Limited, syss: seq<Sys>, calls: seq<Timed>, from: int, k: nat)
    requires IsServiceRun(env, syss, calls) && k < |calls|
    ensures AllowedSeen(env, what, syss, calls, from, k)
            + OneIf(from <= calls[k].now && Does(env, what, syss, calls, k))
            <= AllowedSeen(env, what, syss, calls, from, k + 1)
  {
    var front, now := SeenTimes(env, KeyOf(what), syss, calls, k), calls[k].now;
    AllowedFromPrefix(front, now, |front|, LimitOf(what), WINDOW, from);
    if Does(env, what, syss, calls, k) {
      DoingIsAllowed(env, what, syss, calls, k);
      FirstCallsPass(front + [now], |front|, LimitOf(what), WINDOW);
    }
  }

  lemma {:induction false} CountIsAllowed(env: Env, what: Limited, syss: seq<Sys>, calls: seq<Timed>, from: int, n: nat)
    requires IsServiceRun(env, syss, calls) && n <= |calls|
    ensures Count(env, what, syss, calls, from, n) <= AllowedSeen(env, what, syss, calls, from, n)
  {
    if n > 0 {
      CountIsAllowed(env, what, syss, calls, from, n - 1);
      DoingCounts(env, what, syss, calls, from, n - 1);
    }
  }

  /** In any interval of length `length`, over any run of the service, at most 3 * (length / W + 2) OTPs are stored for
      a phone, and at most 5 * (length / W + 2) candidates are compared with its OTPs, where W is the limiter window. */
  lemma ServiceRate(env: Env, what: Limited, syss: seq<Sys>, calls: seq<Timed>, from: int, n: nat, length: nat)
    requires IsServiceRun(env, syss, calls) && n <= |calls|
    requires forall i | 0 <= i < n :: calls[i].now <= from + length
    ensures Count(env, what, syss, calls, from, n) <= LimitOf(what) * (length / WINDOW + 2)
  {
    var seen := SeenTimes(env, KeyOf(what), syss, calls, n);
    CountIsAllowed(env, what, syss, calls, from, n);
    SeenInOrder(env, KeyOf(what), syss, calls, n);
    assert forall i | 0 <= i < |seen| :: seen[i] in seen;
    IntervalBound(seen, |seen|, LimitOf(what), WINDOW, from, length);
  }

  // ---------------------------------------------------------------- lockouts

  /** Call `i` finds the OTP of the phone hash exhausted, and Redis carries the lockout out. */
  predicate Locks(env: Env, hash: string, syss: seq<Sys>, calls: seq<Timed>, i: nat)
    requires |syss| == |calls| + 1 && i < |calls|
  {
    var c := calls[i].call;
    && c.Verify? && ValidPhone(c.phone) && c.device != "" && env.hash(c.phone) == hash
    && VerifyCall.Judge(env, hash, AccountOf(syss[i], hash), c.candidate, c.replies.gate, calls[i].now).Exhausted?
    && !c.replies.gate.setLock.Refused?
  }

  lemma LockStep(env: Env, hash: string, syss: seq<Sys>, calls: seq<Timed>, i: nat)
    requires IsServiceRun(env, syss, calls) && i < |calls|
    ensures Get(syss[i + 1].locks, LockKey(hash))
            == if Locks(env, hash, syss, calls, i) then Some(calls[i].now + 900 * NANOS)
               else Get(syss[i].locks, LockKey(hash))
  {
    assert SysStep(env, syss[i], calls[i], syss[i + 1]);
    var c := calls[i].call;
    if c.Verify? {
      KeysDiffer(hash, env.hash(c.phone), "");
    }
  }

  /** The lockout, if any, is that of the last call that locked. */
  lemma {:induction false} LockFollows(env: Env, hash: string, syss: seq<Sys>, calls: seq<Timed>, n: nat, now: int)
    requires IsServiceRun(env, syss, calls) && n <= |calls|
    ensures Lives(Get(syss[n].locks, LockKey(hash)), now) <==>
            exists i: nat | i < n :: Locks(env, hash, syss, calls, i) && now < calls[i].now + 900 * NANOS
  {
    if n > 0 {
      var k := n - 1;
      LockFollows(env, hash, syss, calls, k, now);
      LockStep(env, hash, syss, calls, k);
      if Locks(env, hash, syss, calls, k) {
        assert forall i: nat | i < k :: calls[i].now <= calls[k].now;
      }
    }
  }

  /** A phone is locked exactly for fifteen minutes after a verification that found its OTP exhausted. */
  lemma LockedExactly(env: Env, syss: seq<Sys>, calls: seq<Timed>, n: nat)
    requires IsServiceRun(env, syss, calls) && n < |calls| && calls[n].call.Verify?
    requires calls[n].call.replies.gate.limit.Delivered? && calls[n].call.replies.gate.lock.Delivered?
    requires SeenInWindow(env, VerifyKey(env.hash(calls[n].call.phone)), syss, calls, n) < 5
    ensures var c, hash := calls[n].call, env.hash(calls[n].call.phone);
            VerifyCall.Gate(AccountOf(syss[n], hash), c.replies.gate, calls[n].now) == Some(VerifyCall.LockedOut) <==>
            exists i: nat | i < n :: Locks(env, hash, syss, calls, i) && calls[n].now < calls[i].now + 900 * NANOS
  {
    VerificationRefusedExactly(env, syss, calls, n);
    LockFollows(env, env.hash(calls[n].call.phone), syss, calls, n, calls[n].now);
  }
}
