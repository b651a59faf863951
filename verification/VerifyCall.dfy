/** What one `VerifyOTP` call decides before it touches users and sessions: the rate limit, the lockout,
    and the checks on the stored OTP, in that order. */
module VerifyCall {
  import opened Domain
  import opened Rfc3339
  import opened Otp
  import opened Tables
  import opened Records
  import opened RateLimit

  const WINDOW := OTP_RATE_LIMIT_WINDOW * NANOS
  const LOCKOUT := OTP_LOCKOUT * NANOS

  /** Everything these checks read and write for one phone. */
  datatype Account = Account(counter: Option<Counter>, lock: Option<int>, row: Option<OtpRow>)

  datatype Verdict = Unavailable | Limited | LockedOut
                   | NoRow | Spent | Exhausted | Unreadable | Expired | Wrong | Right

  /** The checks on the stored row: status, attempts, expiry and digest, in that order. */
  function Examine(env: Env, hash: string, row: Option<OtpRow>, candidate: string, now: int): Verdict {
    if row.None? then NoRow
    else if row.value.status.Verified? then Spent
    else if row.value.attempts >= MAX_OTP_VERIFY_ATTEMPTS then Exhausted
    else if env.read(row.value.expiresAt).None? then Unreadable
    else if ExpiredAt(env, row.value.expiresAt, now) then Expired
    else if !VerifyOtpMac(env.pepper, candidate, hash, row.value.expiresAt, row.value.mac) then Wrong
    else Right
  }

  /** What Redis answers to the limiter, to the question for a lockout, and to setting one. */
  datatype GateReplies = GateReplies(limit: Reply, lock: Reply, setLock: Reply)

  const ANSWERED := GateReplies(Delivered, Delivered, Delivered)

  /** The limit and the lockout, in that order; both fail closed. */
  function Gate(acc: Account, replies: GateReplies, now: int): Option<Verdict> {
    if !replies.limit.Delivered? then Some(Unavailable)
    else if Incr(acc.counter, now, WINDOW).count > MAX_OTP_VERIFY_ATTEMPTS then Some(Limited)
    else if !replies.lock.Delivered? then Some(Unavailable)
    else if Lives(acc.lock, now) then Some(LockedOut)
    else None
  }

  function Judge(env: Env, hash: string, acc: Account, candidate: string, replies: GateReplies, now: int): Verdict {
    match Gate(acc, replies, now)
    case Some(v) => v
    case None => Examine(env, hash, acc.row, candidate, now)
  }

  /** The account after a call with verdict `v`: a call is counted unless Redis refuses, a wrong candidate costs an
      attempt, and an exhausted row locks the phone unless Redis refuses. */
  function Settle(acc: Account, v: Verdict, replies: GateReplies, now: int): Account {
    Account(if replies.limit.Refused? then acc.counter else Some(Incr(acc.counter, now, WINDOW)),
            if v.Exhausted? && !replies.setLock.Refused? then Some(now + LOCKOUT) else acc.lock,
            if v.Wrong? && acc.row.Some? then Some(acc.row.value.(attempts := acc.row.value.attempts + 1)) else acc.row)
  }

  function ErrorOf(v: Verdict): Error
    requires !v.Right?
  {
    match v
    case Unavailable => ErrUnavailable
    case Limited => ErrRateLimited
    case LockedOut => ErrRateLimited
    case Exhausted => ErrRateLimited
    case Unreadable => ErrParse
    case NoRow => ErrInvalidOtp
    case Spent => ErrInvalidOtp
    case Expired => ErrInvalidOtp
    case Wrong => ErrInvalidOtp
  }

  /** A verification passes all its checks exactly when Redis answers both questions, the count is within the limit,
      no lockout lives, and the stored OTP is pending, has attempts left, has not expired and has the candidate's
      digest. */
  lemma PassesExactly(env: Env, hash: string, acc: Account, candidate: string, replies: GateReplies, now: int)
    ensures Judge(env, hash, acc, candidate, replies, now).Right? <==>
            && replies.limit.Delivered? && Incr(acc.counter, now, WINDOW).count <= 5
            && replies.lock.Delivered? && !Lives(acc.lock, now)
            && acc.row.Some? && acc.row.value.status.Pending? && acc.row.value.attempts < 5
            && env.read(acc.row.value.expiresAt).Some? && now <= env.read(acc.row.value.expiresAt).value * NANOS
            && acc.row.value.mac == ComputeOtpMac(env.pepper, candidate, hash, acc.row.value.expiresAt)
  {
  }

  /** What a caller is told: nothing about the OTP beyond "invalid", except that an exhausted one counts as a limit. */
  lemma FailureAnswers(env: Env, hash: string, acc: Account, candidate: string, replies: GateReplies, now: int)
    requires !Judge(env, hash, acc, candidate, replies, now).Right?
    ensures var e := ErrorOf(Judge(env, hash, acc, candidate, replies, now));
            var passed := Gate(acc, replies, now).None?;
            && (e == ErrUnavailable <==> !replies.limit.Delivered?
                                         || (Incr(acc.counter, now, WINDOW).count <= 5 && !replies.lock.Delivered?))
            && (passed && acc.row.None? ==> e == ErrInvalidOtp)
            && (passed && acc.row.Some? && acc.row.value.status.Verified? ==> e == ErrInvalidOtp)
            && (passed && acc.row.Some? && acc.row.value.status.Pending? ==>
                  && (e == ErrRateLimited <==> acc.row.value.attempts >= 5)
                  && (e == ErrParse <==> acc.row.value.attempts < 5 && env.read(acc.row.value.expiresAt).None?))
            && (e == ErrUnavailable || e == ErrRateLimited || e == ErrParse || e == ErrInvalidOtp)
            && (!passed && e != ErrUnavailable ==> e == ErrRateLimited)
  {
  }

  // ---------------------------------------------------------------- serial runs of one phone

  /** Whole calls for one phone: a verification, whose login completes or not; an OTP request that reaches
      the store; and the TTL removal of the row. */
  datatype Call =
    | Verify(now: int, candidate: string, completes: bool, replies: GateReplies)
    | Request(now: int, code: string)
    | Remove(now: int)

  /** The account, with counts that concern the stored OTP: when it was created, how often a candidate was
      compared with it, how often that was wrong, and the limiter window of the first wrong one. */
  datatype Track = Track(acc: Account, createdAt: int, compared: nat, wrong: nat, firstWrong: Option<int>)

  function Window(acc: Account, now: int): int {
    Incr(acc.counter, now, WINDOW).expireAt
  }

  function Step(env: Env, phone: string, t: Track, call: Call): Track {
    match call
    case Verify(now, candidate, completes, replies) =>
      var v := Judge(env, env.hash(phone), t.acc, candidate, replies, now);
      var acc := Settle(t.acc, v, replies, now);
      if v.Wrong? then
        Track(acc, t.createdAt, t.compared + 1, t.wrong + 1,
              if t.firstWrong.None? then Some(Window(t.acc, now)) else t.firstWrong)
      else if v.Right? then
        t.(acc := if completes then acc.(row := Some(acc.row.value.(status := Verified))) else acc,
           compared := t.compared + 1)
      else t.(acc := acc)
    case Request(now, code) =>
      if t.acc.row.None? || t.acc.row.value.status.Verified? || TextLess(t.acc.row.value.expiresAt, Stamp(env, now))
      then Track(t.acc.(row := Some(NewOtp(env, phone, code, now))), now, 0, 0, None)
      else t
    case Remove(now) =>
      if t.acc.row.Some? && t.acc.row.value.ttl < SecondsOf(now)
      then Track(t.acc.(row := None), now, 0, 0, None)
      else t
  }

  function ReplayFrom(env: Env, phone: string, t: Track, calls: seq<Call>): Track {
    if calls == [] then t
    else Step(env, phone, ReplayFrom(env, phone, t, calls[..|calls| - 1]), calls[|calls| - 1])
  }

  const START := Track(Account(None, None, None), 0, 0, 0, None)

  function Replay(env: Env, phone: string, calls: seq<Call>): Track {
    ReplayFrom(env, phone, START, calls)
  }

  ghost predicate InOrder(calls: seq<Call>) {
    && (forall i :: 0 <= i < |calls| ==> ClockOk(calls[i].now))
    && (forall i, j :: 0 <= i < j < |calls| ==> calls[i].now <= calls[j].now)
  }

  // ---------------------------------------------------------------- the bounds

  /** The wrong guesses so far are the attempts on the row, and none has a later window than the current. */
  ghost predicate WrongOk(t: Track) {
    && (t.acc.row.Some? ==> t.acc.row.value.attempts == t.wrong)
    && t.wrong <= MAX_OTP_VERIFY_ATTEMPTS
    && (t.wrong > 0 <==> t.firstWrong.Some?)
    && (t.wrong > 0 ==>
          && t.acc.counter.Some?
          && (t.firstWrong.value == t.acc.counter.value.expireAt
              || t.firstWrong.value <= t.acc.counter.value.expireAt - WINDOW)
          && (t.firstWrong.value == t.acc.counter.value.expireAt ==> t.wrong <= t.acc.counter.value.count))
  }

  /** Comparisons fit into the window that was open when the row was created and the one after it. */
  ghost predicate ComparedOk(env: Env, t: Track) {
    && (t.acc.row.Some? ==>
          ExpiryOk(env, t.acc.row.value.expiresAt, t.acc.row.value.ttl)
          && t.acc.row.value.ttl * NANOS <= t.createdAt + OTP_VALIDITY * NANOS)
    && t.compared <= 2 * MAX_OTP_VERIFY_ATTEMPTS
    && (t.compared > 0 ==> t.acc.counter.Some? && t.createdAt < t.acc.counter.value.expireAt)
    && (t.acc.counter.Some? ==>
          var start := t.acc.counter.value.expireAt - WINDOW;
          var n := Min(t.acc.counter.value.count, MAX_OTP_VERIFY_ATTEMPTS);
          && (start <= t.createdAt ==> t.compared <= n)
          && (t.createdAt < start <= t.createdAt + OTP_VALIDITY * NANOS ==> t.compared <= MAX_OTP_VERIFY_ATTEMPTS + n))
  }

  /** Neither the stored row nor the open window nor the lockout began in the future. */
  ghost predicate Timely(t: Track, now: int) {
    && (t.acc.row.Some? ==> t.createdAt <= now)
    && (t.acc.counter.Some? ==> t.acc.counter.value.expireAt - WINDOW <= now)
    && (t.acc.lock.Some? ==> t.acc.lock.value - LOCKOUT <= now)
  }

  lemma StepKeepsWrong(env: Env, phone: string, t: Track, call: Call)
    requires WrongOk(t)
    ensures WrongOk(Step(env, phone, t, call))
  {
  }

  lemma StepKeepsCompared(env: Env, phone: string, t: Track, call: Call)
    requires TextOk(env) && ComparedOk(env, t) && ClockOk(call.now) && Timely(t, call.now)
    ensures ComparedOk(env, Step(env, phone, t, call)) && Timely(Step(env, phone, t, call), call.now)
  {
    if call.Request? {
      ExpiryStamp(env, call.now, OTP_VALIDITY);
    }
  }

  lemma {:induction false} ReplayKeepsBounds(env: Env, phone: string, calls: seq<Call>)
    requires TextOk(env) && InOrder(calls)
    ensures WrongOk(Replay(env, phone, calls)) && ComparedOk(env, Replay(env, phone, calls))
    ensures calls != [] ==> Timely(Replay(env, phone, calls), calls[|calls| - 1].now)
  {
    if calls != [] {
      var front, last := calls[..|calls| - 1], calls[|calls| - 1];
      ReplayKeepsBounds(env, phone, front);
      assert front != [] ==> front[|front| - 1] == calls[|calls| - 2];
      var t := Replay(env, phone, front);
      assert Timely(t, last.now);
      StepKeepsWrong(env, phone, t, last);
      StepKeepsCompared(env, phone, t, last);
    }
  }

  /** With whole calls in any order, a stored OTP is compared with at most ten candidates, of which at most
      five are wrong. */
  lemma GuessBound(env: Env, phone: string, calls: seq<Call>)
    requires TextOk(env) && InOrder(calls)
    ensures Replay(env, phone, calls).compared <= 2 * MAX_OTP_VERIFY_ATTEMPTS
    ensures Replay(env, phone, calls).wrong <= MAX_OTP_VERIFY_ATTEMPTS
  {
    ReplayKeepsBounds(env, phone, calls);
  }

  /** A lockout is set only by a call whose limiter window begins after the end of the window of the first
      wrong guess on the stored OTP: five wrong guesses and that call do not fit into one window. */
  lemma LockoutNeedsLaterWindow(env: Env, phone: string, calls: seq<Call>, call: Call)
    requires TextOk(env) && InOrder(calls + [call]) && call.Verify?
    requires var acc := Replay(env, phone, calls).acc;
             Judge(env, env.hash(phone), acc, call.candidate, call.replies, call.now).Exhausted?
    ensures var t := Replay(env, phone, calls);
            t.firstWrong.Some? && t.firstWrong.value <= Window(t.acc, call.now) - WINDOW
  {
    var all := calls + [call];
    assert forall i :: 0 <= i < |calls| ==> all[i] == calls[i];
    ReplayKeepsBounds(env, phone, calls);
  }
}
