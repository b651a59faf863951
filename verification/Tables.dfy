/** The three DynamoDB tables: their rows, the conditions of the conditional writes, and what each
    write does. The store classes and the interleaved protocol share these definitions. */
module Tables {
  import opened Rfc3339
  import opened Otp

  datatype OtpStatus = Pending | Verified

  datatype OtpRow = OtpRow(mac: Mac, createdAt: string, expiresAt: string, status: OtpStatus, attempts: nat, ttl: int)

  /** A row of the users table: a user, or the sentinel that reserves a phone for its owner. */
  datatype UserRow =
    | User(phone: string, createdAt: string, updatedAt: string)
    | Sentinel(phone: string, owner: string)

  /** SHA-256 of a refresh token, taken as injective; a new session has no previous one. */
  datatype TokenHash = NoHash | Sha256(token: string)

  datatype Session = Session(
    id: string, userId: string, deviceId: string,
    refreshHash: TokenHash, prevHash: TokenHash, generation: int,
    createdAt: string, expiresAt: string, ttl: int)

  datatype Db = Db(otp: map<string, OtpRow>, users: map<string, UserRow>, sessions: map<string, Session>)

  // ---------------------------------------------------------------- otp_requests

  /** The condition of the OTP put: no row, a consumed row, or a row whose expiry text is before `now`. */
  predicate MayCreateOtp(otp: map<string, OtpRow>, hash: string, now: string) {
    hash !in otp || otp[hash].status.Verified? || TextLess(otp[hash].expiresAt, now)
  }

  /** An increment of a missing row is rejected by the store and changes nothing. */
  function BumpAttempts(otp: map<string, OtpRow>, hash: string): map<string, OtpRow> {
    if hash in otp then otp[hash := otp[hash].(attempts := otp[hash].attempts + 1)] else otp
  }

  /** A pending row with the expiry and digest that were read earlier. */
  predicate OtpMatches(otp: map<string, OtpRow>, hash: string, expiresAt: string, mac: Mac) {
    hash in otp && otp[hash].status.Pending? && otp[hash].expiresAt == expiresAt && otp[hash].mac == mac
  }

  function ConsumeOtp(otp: map<string, OtpRow>, hash: string): map<string, OtpRow>
    requires hash in otp
  {
    otp[hash := otp[hash].(status := Verified)]
  }

  // ---------------------------------------------------------------- users

  function SentinelKey(phone: string): string {
    "phone#" + phone
  }

  /** The text form of a UUID: 36 characters, each a hexadecimal digit or a dash. */
  predicate IsUuid(id: string) {
    |id| == 36 && forall i :: 0 <= i < 36 ==> '0' <= id[i] <= '9' || 'a' <= id[i] <= 'f' || id[i] == '-'
  }

  lemma SentinelKeyIsNoUuid(phone: string)
    ensures !IsUuid(SentinelKey(phone))
  {
    assert SentinelKey(phone)[0] == 'p';
  }

  lemma SentinelKeyInjective(p: string, q: string)
    requires SentinelKey(p) == SentinelKey(q)
    ensures p == q
  {
    assert p == SentinelKey(p)[6..] && q == SentinelKey(q)[6..];
  }

  /** Every user row is the owner named by its phone's sentinel, and every sentinel names such a row. */
  predicate UsersOk(users: map<string, UserRow>) {
    forall k | k in users :: UserRowOk(users, k)
  }

  predicate UserRowOk(users: map<string, UserRow>, k: string)
    requires k in users
  {
    match users[k]
    case User(phone, _, _) =>
      IsUuid(k) && SentinelKey(phone) in users && users[SentinelKey(phone)] == Sentinel(phone, k)
    case Sentinel(phone, owner) =>
      k == SentinelKey(phone) && owner in users && users[owner].User? && users[owner].phone == phone
  }

  /** No phone has two users. */
  lemma PhoneHasOneUser(users: map<string, UserRow>, k: string, l: string)
    requires UsersOk(users)
    requires k in users && l in users && users[k].User? && users[l].User? && users[k].phone == users[l].phone
    ensures k == l
  {
    assert UserRowOk(users, k) && UserRowOk(users, l);
  }

  // ---------------------------------------------------------------- sessions

  predicate DistinctIds(sessions: seq<Session>) {
    forall i, j :: 0 <= i < j < |sessions| ==> sessions[i].id != sessions[j].id
  }

  /** What the user index returns for `user`, in some order: the rows whose expiry text is after `now`. */
  ghost predicate IsListing(sessions: map<string, Session>, user: string, now: string, listed: seq<Session>) {
    && DistinctIds(listed)
    && (forall s :: s in listed <==>
          s.id in sessions && sessions[s.id] == s && s.userId == user && TextLess(now, s.expiresAt))
  }

  // ---------------------------------------------------------------- transactions

  datatype Registration = Registration(
    hash: string, expiresAt: string, mac: Mac, userId: string, phone: string, now: string, session: Session)

  datatype Login = Login(hash: string, expiresAt: string, mac: Mac, session: Session)

  const CHECK_FAILED := "ConditionalCheckFailed"

  function Reason(holds: bool): string {
    if holds then "" else CHECK_FAILED
  }

  /** One cancellation reason for each item of the registration: OTP update, user, sentinel, session. */
  function RegistrationReasons(db: Db, p: Registration): seq<string> {
    [Reason(OtpMatches(db.otp, p.hash, p.expiresAt, p.mac)),
     Reason(p.userId !in db.users),
     Reason(SentinelKey(p.phone) !in db.users),
     Reason(p.session.id !in db.sessions)]
  }

  function LoginReasons(db: Db, p: Login): seq<string> {
    [Reason(OtpMatches(db.otp, p.hash, p.expiresAt, p.mac)),
     Reason(p.session.id !in db.sessions)]
  }

  /** A transaction is applied as a whole when no item has a reason against it. */
  predicate NoReason(reasons: seq<string>) {
    forall r | r in reasons :: r == ""
  }

  predicate MayRegister(db: Db, p: Registration) {
    && OtpMatches(db.otp, p.hash, p.expiresAt, p.mac)
    && p.userId !in db.users
    && SentinelKey(p.phone) !in db.users
    && p.session.id !in db.sessions
  }

  predicate MayLogin(db: Db, p: Login) {
    OtpMatches(db.otp, p.hash, p.expiresAt, p.mac) && p.session.id !in db.sessions
  }

  function ApplyRegistration(db: Db, p: Registration): Db
    requires MayRegister(db, p)
  {
    Db(ConsumeOtp(db.otp, p.hash),
       db.users[p.userId := User(p.phone, p.now, p.now)][SentinelKey(p.phone) := Sentinel(p.phone, p.userId)],
       db.sessions[p.session.id := p.session])
  }

  function ApplyLogin(db: Db, p: Login): Db
    requires MayLogin(db, p)
  {
    Db(ConsumeOtp(db.otp, p.hash), db.users, db.sessions[p.session.id := p.session])
  }

  lemma RegistrationDecision(db: Db, p: Registration)
    ensures MayRegister(db, p) <==> NoReason(RegistrationReasons(db, p))
    ensures !MayRegister(db, p) <==> CHECK_FAILED in RegistrationReasons(db, p)
  {
    var rs := RegistrationReasons(db, p);
    assert rs[0] in rs && rs[1] in rs && rs[2] in rs && rs[3] in rs;
  }

  lemma LoginDecision(db: Db, p: Login)
    ensures MayLogin(db, p) <==> NoReason(LoginReasons(db, p))
    ensures !MayLogin(db, p) <==> CHECK_FAILED in LoginReasons(db, p)
  {
    var rs := LoginReasons(db, p);
    assert rs[0] in rs && rs[1] in rs;
  }

  /** Registration keeps the users table consistent; the sentinel condition is what forbids a second user. */
  lemma RegistrationKeepsUsers(db: Db, p: Registration)
    requires UsersOk(db.users) && MayRegister(db, p) && IsUuid(p.userId)
    ensures UsersOk(ApplyRegistration(db, p).users)
    ensures forall k | k in db.users ::
              k in ApplyRegistration(db, p).users && ApplyRegistration(db, p).users[k] == db.users[k]
  {
    var users' := ApplyRegistration(db, p).users;
    SentinelKeyIsNoUuid(p.phone);
    forall k | k in users'
      ensures UserRowOk(users', k)
    {
      if k in db.users {
        assert UserRowOk(db.users, k);
      }
    }
  }
}
