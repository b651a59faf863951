/** The OTP login protocol as a transition system.

Any number of `RequestOTP` and `VerifyOTP` calls are in flight, each with the values it has read so far.
Every store call and every clock reading is one atomic step, so calls interleave freely; a call may stop
at any point, as it does when a store reports an error. Logouts, whole refresh calls, clock ticks and
TTL removals are further steps. The history `log` is only written, never read by the code.
*/
module Protocol {
  import opened Domain
  import opened Rfc3339
  import opened Otp
  import opened Tables
  import opened Records
  import opened Eviction

  // ---------------------------------------------------------------- history

  datatype Event =
    | Issued(phone: string, hash: string, code: string, mac: Mac, expiresAt: string, replacedPending: bool)
    | Committed(phone: string, hash: string, candidate: string, mac: Mac, expiresAt: string,
                userId: string, sessionId: string, deviceId: string, isNew: bool, createdAt: string)
    | Removed(hash: string)

  /** The clock in nanoseconds, the tables, and everything that has happened so far. */
  datatype World = World(now: int, db: Db, log: seq<Event>)

  // ---------------------------------------------------------------- requests in flight

  /** What a verification carries after reading the OTP row: its arguments, the pair that identifies
      the row, and the length of the history at that read. */
  datatype Ctx = Ctx(phone: string, device: string, candidate: string, mac: Mac, expiresAt: string, readAt: nat)

  datatype Proc =
    | Requesting(phone: string)
    | Built(phone: string, code: string, row: OtpRow)
    | Putting(phone: string, code: string, row: OtpRow, at: int)
    | Verifying(phone: string, candidate: string, device: string)
    | Checking(c: Ctx, row: OtpRow)
    | Counting(phone: string)
    | Finding(c: Ctx, retry: bool)
    | Loading(c: Ctx, key: string, retry: bool)
    | NewUser(c: Ctx)
    | Registering(c: Ctx, r: Registration)
    | Listing(c: Ctx, user: string)
    | Querying(c: Ctx, user: string, at: int)
    | Evicting(c: Ctx, user: string, keep: set<string>, todo: seq<string>)
    | LoggingIn(c: Ctx, user: string, keep: set<string>, l: Login)
    | Finished

  /** What the environment decides about the next step of one request. */
  datatype Action =
    | Run
    | DrawCode(n: nat)
    | Hit(key: Option<string>)
    | DrawIds(userId: string, sessionId: string, token: string)
    | Answer(listed: seq<Session>, evicted: seq<Session>, kept: seq<Session>)
    | Quit

  /** The user index answers with some row that carries the phone, be it the user or the sentinel. It
      may also lag behind the table and miss rows, so no answer is always possible. */
  predicate IndexAnswer(users: map<string, UserRow>, phone: string, key: Option<string>) {
    key.Some? ==> key.value in users && users[key.value].phone == phone
  }

  /** Which actions fit the program point of a request. */
  ghost predicate CanMove(env: Env, w: World, p: Proc, a: Action) {
    match p
    case Requesting(_) => a.Quit? || (a.DrawCode? && a.n < Pow10(CODE_WIDTH))
    case Finding(c, _) => a.Quit? || (a.Hit? && IndexAnswer(w.db.users, c.phone, a.key))
    case NewUser(_) => a.Quit? || (a.DrawIds? && IsUuid(a.userId))
    case Querying(c, user, at) =>
      a.Quit? || (a.Answer? && IsListing(w.db.sessions, user, Stamp(env, at), a.listed)
                  && IsSplit(OffDevice(a.listed, c.device), a.evicted, a.kept))
    case Evicting(_, _, _, todo) => a.Quit? || (if todo == [] then a.DrawIds? else a.Run?)
    case Finished => false
    case _ => a.Quit? || a.Run?
  }

  /** The next program point and local values of the request. */
  function MoveProc(env: Env, w: World, p: Proc, a: Action): Proc {
    if a.Quit? then Finished else
    match p
    case Requesting(phone) =>
      if a.DrawCode? && a.n < Pow10(CODE_WIDTH)
      then Built(phone, GenerateOtp(a.n), NewOtp(env, phone, GenerateOtp(a.n), w.now))
      else Finished
    case Built(phone, code, row) => Putting(phone, code, row, w.now)
    case Putting(_, _, _, _) => Finished
    case Verifying(phone, candidate, device) =>
      var h := env.hash(phone);
      if h in w.db.otp then
        var row := w.db.otp[h];
        Checking(Ctx(phone, device, candidate, row.mac, row.expiresAt, |w.log|), row)
      else Finished
    case Checking(c, row) =>
      if row.status.Verified? || row.attempts >= MAX_OTP_VERIFY_ATTEMPTS then Finished
      else if ExpiredAt(env, row.expiresAt, w.now) then Finished
      else if !VerifyOtpMac(env.pepper, c.candidate, env.hash(c.phone), row.expiresAt, row.mac) then Counting(c.phone)
      else Finding(c, false)
    case Counting(_) => Finished
    case Finding(c, retry) =>
      if a.Hit? && a.key.Some? then Loading(c, a.key.value, retry)
      else if retry then Finished
      else NewUser(c)
    case Loading(c, key, retry) =>
      if key in w.db.users then Listing(c, key)
      else if retry then Finished
      else NewUser(c)
    case NewUser(c) =>
      if a.DrawIds?
      then Registering(c, Registration(env.hash(c.phone), c.expiresAt, c.mac, a.userId, c.phone, Stamp(env, w.now),
                                       NewSession(env, a.sessionId, a.userId, c.device, a.token, w.now)))
      else Finished
    case Registering(c, r) => if MayRegister(w.db, r) then Finished else Finding(c, true)
    case Listing(c, user) => Querying(c, user, w.now)
    case Querying(c, user, _) =>
      if a.Answer?
      then Evicting(c, user, IdSet(a.kept), Ids(OnDevice(a.listed, c.device)) + Ids(a.evicted))
      else Finished
    case Evicting(c, user, keep, todo) =>
      if todo != [] then Evicting(c, user, keep, todo[1..])
      else if a.DrawIds?
      then LoggingIn(c, user, keep, Login(env.hash(c.phone), c.expiresAt, c.mac,
                                          NewSession(env, a.sessionId, user, c.device, a.token, w.now)))
      else Finished
    case LoggingIn(_, _, _, _) => Finished
    case Finished => Finished
  }

  // ---------------------------------------------------------------- effects on the world

  predicate HasPending(otp: map<string, OtpRow>, hash: string) {
    hash in otp && otp[hash].status.Pending?
  }

  function PutOtp(env: Env, w: World, phone: string, hash: string, code: string, row: OtpRow, at: int): World {
    if MayCreateOtp(w.db.otp, hash, Stamp(env, at)) then
      w.(db := w.db.(otp := w.db.otp[hash := row]),
         log := w.log + [Issued(phone, hash, code, row.mac, row.expiresAt, HasPending(w.db.otp, hash))])
    else w
  }

  function CommitRegistration(w: World, c: Ctx, r: Registration): World {
    if MayRegister(w.db, r) then
      w.(db := ApplyRegistration(w.db, r),
         log := w.log + [Committed(c.phone, r.hash, c.candidate, c.mac, c.expiresAt,
                                   r.userId, r.session.id, r.session.deviceId, true, r.session.createdAt)])
    else w
  }

  function CommitLogin(w: World, c: Ctx, l: Login): World {
    if MayLogin(w.db, l) then
      w.(db := ApplyLogin(w.db, l),
         log := w.log + [Committed(c.phone, l.hash, c.candidate, c.mac, c.expiresAt,
                                   l.session.userId, l.session.id, l.session.deviceId, false, l.session.createdAt)])
    else w
  }

  function DeleteSession(w: World, id: string): World {
    w.(db := w.db.(sessions := w.db.sessions - {id}))
  }

  function RefreshSession(env: Env, w: World, id: string, token: string): World
    requires id in w.db.sessions
  {
    w.(db := w.db.(sessions := w.db.sessions[id := Rotated(env, w.db.sessions[id], token, w.now)]))
  }

  /** TTL removal of an OTP row; only the loss of a pending one is an event. */
  function RemoveOtp(w: World, hash: string): World {
    w.(db := w.db.(otp := w.db.otp - {hash}),
       log := if HasPending(w.db.otp, hash) then w.log + [Removed(hash)] else w.log)
  }

  function MoveWorld(env: Env, w: World, p: Proc, a: Action): World {
    if a.Quit? then w else
    match p
    case Putting(phone, code, row, at) => PutOtp(env, w, phone, env.hash(phone), code, row, at)
    case Counting(phone) => w.(db := w.db.(otp := BumpAttempts(w.db.otp, env.hash(phone))))
    case Registering(c, r) => CommitRegistration(w, c, r)
    case Evicting(_, _, _, todo) => if todo == [] then w else DeleteSession(w, todo[0])
    case LoggingIn(c, _, _, l) => CommitLogin(w, c, l)
    case _ => w
  }

  /** The program points at which the next step writes to the tables. */
  predicate Writes(p: Proc) {
    p.Putting? || p.Counting? || p.Registering? || p.Evicting? || p.LoggingIn?
  }

  lemma ReadOnlyMove(env: Env, w: World, p: Proc, a: Action)
    requires !Writes(p) || a.Quit?
    ensures MoveWorld(env, w, p, a) == w
  {
  }

  // ---------------------------------------------------------------- runs

  datatype State = State(w: World, procs: map<nat, Proc>)

  datatype Step =
    | Arrive(q: nat, p: Proc)
    | Move(q: nat, a: Action)
    | Logout(id: string)
    | Refresh(id: string, token: string)
    | Tick(t: int)
    | ExpireOtp(hash: string)
    | ExpireSession(id: string)

  ghost predicate Enabled(env: Env, s: State, step: Step) {
    match step
    case Arrive(q, p) => q !in s.procs && (p.Requesting? || (p.Verifying? && p.device != "")) && ValidPhone(p.phone)
    case Move(q, a) => q in s.procs && CanMove(env, s.w, s.procs[q], a)
    case Logout(_) => true
    case Refresh(id, _) => id in s.w.db.sessions && !ExpiredAt(env, s.w.db.sessions[id].expiresAt, s.w.now)
    case Tick(t) => s.w.now <= t && ClockOk(t)
    case ExpireOtp(h) => h in s.w.db.otp && s.w.db.otp[h].ttl < SecondsOf(s.w.now)
    case ExpireSession(id) => id in s.w.db.sessions && s.w.db.sessions[id].ttl < SecondsOf(s.w.now)
  }

  function NextWorld(env: Env, s: State, step: Step): World {
    match step
    case Arrive(_, _) => s.w
    case Move(q, a) => if q in s.procs then MoveWorld(env, s.w, s.procs[q], a) else s.w
    case Logout(id) => DeleteSession(s.w, id)
    case Refresh(id, token) => if id in s.w.db.sessions then RefreshSession(env, s.w, id, token) else s.w
    case Tick(t) => s.w.(now := t)
    case ExpireOtp(h) => RemoveOtp(s.w, h)
    case ExpireSession(id) => DeleteSession(s.w, id)
  }

  function Next(env: Env, s: State, step: Step): State {
    State(NextWorld(env, s, step),
          match step
          case Arrive(q, p) => s.procs[q := p]
          case Move(q, a) => if q in s.procs then s.procs[q := MoveProc(env, s.w, s.procs[q], a)] else s.procs
          case _ => s.procs)
  }

  predicate Initial(s: State) {
    ClockOk(s.w.now) && s.w.db == Db(map[], map[], map[]) && s.w.log == [] && s.procs == map[]
  }

  ghost predicate Transition(env: Env, s: State, step: Step, s': State) {
    Enabled(env, s, step) && s' == Next(env, s, step)
  }

  /** `states` is a run of the service from empty tables, and `steps[i]` leads from `states[i]` to the next. */
  ghost predicate IsRun(env: Env, states: seq<State>, steps: seq<Step>) {
    && |states| == |steps| + 1
    && Initial(states[0])
    && forall i {:trigger Transition(env, states[i], steps[i], states[i + 1])} ::
         0 <= i < |steps| ==> Transition(env, states[i], steps[i], states[i + 1])
  }

  lemma RunStep(env: Env, states: seq<State>, steps: seq<Step>, i: nat)
    requires IsRun(env, states, steps) && i < |steps|
    ensures Enabled(env, states[i], steps[i]) && states[i + 1] == Next(env, states[i], steps[i])
  {
    assert Transition(env, states[i], steps[i], states[i + 1]);
  }

  // ---------------------------------------------------------------- reading the history

  predicate IssuedAt(log: seq<Event>, i: int, hash: string, mac: Mac, expiresAt: string) {
    0 <= i < |log| && log[i].Issued? && log[i].hash == hash && log[i].mac == mac && log[i].expiresAt == expiresAt
  }

  /** An OTP with this digest and expiry was issued under `hash`. */
  ghost predicate IssuedPair(log: seq<Event>, hash: string, mac: Mac, expiresAt: string) {
    exists i :: IssuedAt(log, i, hash, mac, expiresAt)
  }

  /** A session was created by consuming an OTP of `hash`. */
  predicate CommitsOn(e: Event, hash: string) {
    e.Committed? && e.hash == hash
  }

  /** A session was created under `hash` at some time after this pair had been issued there. */
  ghost predicate CommitSinceIssue(log: seq<Event>, hash: string, mac: Mac, expiresAt: string) {
    exists i, j :: i < j < |log| && IssuedAt(log, i, hash, mac, expiresAt) && CommitsOn(log[j], hash)
  }

  datatype Tally = OtpsIssued(hash: string) | OtpsConsumed(hash: string) | PendingReplaced(hash: string)
                 | PendingRemoved(hash: string) | Registrations(phone: string)

  predicate Counts(t: Tally, e: Event) {
    match t
    case OtpsIssued(h) => e.Issued? && e.hash == h
    case OtpsConsumed(h) => CommitsOn(e, h)
    case PendingReplaced(h) => e.Issued? && e.hash == h && e.replacedPending
    case PendingRemoved(h) => e.Removed? && e.hash == h
    case Registrations(phone) => e.Committed? && e.phone == phone && e.isNew
  }

  function Total(t: Tally, log: seq<Event>): nat {
    if log == [] then 0
    else Total(t, log[..|log| - 1]) + OneIf(Counts(t, log[|log| - 1]))
  }

  lemma TotalAppend(t: Tally, log: seq<Event>, e: Event)
    ensures Total(t, log + [e]) == Total(t, log) + OneIf(Counts(t, e))
  {
    assert (log + [e])[..|log|] == log;
  }
}
