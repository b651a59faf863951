/** The DynamoDB adapters as objects that own their tables. Each call is atomic; failures of the connection
    are not part of these objects. */
module Stores {
  import opened Domain
  import opened Rfc3339
  import opened Tables

  class OtpStore {
    var rows: map<string, OtpRow>

    constructor ()
      ensures rows == map[]
    {
      rows := map[];
    }

    method CreateOtp(hash: string, row: OtpRow, now: string) returns (r: Result<()>)
      modifies this
      ensures r == if MayCreateOtp(old(rows), hash, now) then Ok(()) else Err(ErrAlreadyExists)
      ensures rows == if r.Ok? then old(rows)[hash := row] else old(rows)
    {
      if hash !in rows || rows[hash].status == Verified || TextLess(rows[hash].expiresAt, now) {
        rows := rows[hash := row];
        return Ok(());
      }
      r := Err(ErrAlreadyExists);
    }

    method GetOtp(hash: string) returns (r: Result<OtpRow>)
      ensures r == if hash in rows then Ok(rows[hash]) else Err(ErrNotFound)
    {
      if hash !in rows {
        return Err(ErrNotFound);
      }
      r := Ok(rows[hash]);
    }

    method IncrementAttempts(hash: string)
      modifies this
      ensures rows == BumpAttempts(old(rows), hash)
    {
      if hash in rows {
        rows := rows[hash := rows[hash].(attempts := rows[hash].attempts + 1)];
      }
    }
  }

  class UserStore {
    var rows: map<string, UserRow>

    constructor ()
      ensures rows == map[]
    {
      rows := map[];
    }

    /** Some key whose row carries the phone, the first item the index returns: the user or the sentinel. */
    method FindByPhone(phone: string) returns (r: Result<string>)
      ensures r.Ok? ==> r.value in rows && rows[r.value].phone == phone
      ensures r.Err? ==> r.error == ErrNotFound && forall k | k in rows :: rows[k].phone != phone
    {
      var rest := rows.Keys;
      while rest != {}
        invariant rest <= rows.Keys
        invariant forall k | k in rows && k !in rest :: rows[k].phone != phone
        decreases rest
      {
        var k :| k in rest;
        if rows[k].phone == phone {
          return Ok(k);
        }
        rest := rest - {k};
      }
      r := Err(ErrNotFound);
    }
  }

  ghost predicate KeyedById(rows: map<string, Session>) {
    forall id | id in rows :: rows[id].id == id
  }

  class SessionStore {
    var rows: map<string, Session>

    constructor ()
      ensures rows == map[]
    {
      rows := map[];
    }

    method GetById(id: string) returns (r: Result<Session>)
      ensures r == if id in rows then Ok(rows[id]) else Err(ErrNotFound)
    {
      if id !in rows {
        return Err(ErrNotFound);
      }
      r := Ok(rows[id]);
    }

    method ListByUser(user: string, now: string) returns (listed: seq<Session>)
      requires KeyedById(rows)
      ensures IsListing(rows, user, now, listed)
    {
      listed := [];
      var rest := rows.Keys;
      while rest != {}
        invariant rest <= rows.Keys
        invariant forall i :: 0 <= i < |listed| ==> listed[i].id !in rest
        invariant DistinctIds(listed)
        invariant forall s :: s in listed <==>
                    s.id in rows && s.id !in rest && rows[s.id] == s && s.userId == user && TextLess(now, s.expiresAt)
        decreases rest
      {
        var id :| id in rest;
        rest := rest - {id};
        if rows[id].userId == user && TextLess(now, rows[id].expiresAt) {
          listed := listed + [rows[id]];
        }
      }
    }

    /** The update is unconditional: without a row it leaves one that has no user and no device. */
    method Update(id: string, refreshHash: TokenHash, prevHash: TokenHash, generation: int, expiresAt: string, ttl: int)
      modifies this
      ensures var base := if id in old(rows) then old(rows)[id] else Session(id, "", "", NoHash, NoHash, 0, "", "", 0);
              rows == old(rows)[id := base.(refreshHash := refreshHash, prevHash := prevHash, generation := generation,
                                            expiresAt := expiresAt, ttl := ttl)]
    {
      var base := Session(id, "", "", NoHash, NoHash, 0, "", "", 0);
      if id in rows {
        base := rows[id];
      }
      rows := rows[id := base.(refreshHash := refreshHash, prevHash := prevHash, generation := generation,
                               expiresAt := expiresAt, ttl := ttl)];
    }

    method Delete(id: string)
      modifies this
      ensures rows == old(rows) - {id}
    {
      rows := rows - {id};
    }
  }

  /** Any failed condition, that of the OTP update included, becomes "already exists". */
  method ClassifyTxError(reasons: seq<string>) returns (e: Error)
    ensures e == if CHECK_FAILED in reasons then ErrAlreadyExists else ErrTransactionCanceled
  {
    for i := 0 to |reasons|
      invariant CHECK_FAILED !in reasons[..i]
    {
      if reasons[i] == CHECK_FAILED {
        return ErrAlreadyExists;
      }
    }
    assert reasons[..|reasons|] == reasons;
    e := ErrTransactionCanceled;
  }

  class Transactor {
    const otp: OtpStore
    const users: UserStore
    const sessions: SessionStore

    constructor (otp: OtpStore, users: UserStore, sessions: SessionStore)
      ensures this.otp == otp && this.users == users && this.sessions == sessions
    {
      this.otp, this.users, this.sessions := otp, users, sessions;
    }

    function View(): Db
      reads otp, users, sessions
    {
      Db(otp.rows, users.rows, sessions.rows)
    }

    /** All four items are written or none is. */
    method VerifyOtpAndCreateUser(p: Registration) returns (r: Result<()>)
      modifies otp, users, sessions
      ensures r == if MayRegister(old(View()), p) then Ok(()) else Err(ErrAlreadyExists)
      ensures View() == if MayRegister(old(View()), p) then ApplyRegistration(old(View()), p) else old(View())
    {
      var reasons := RegistrationReasons(View(), p);
      RegistrationDecision(View(), p);
      if CHECK_FAILED in reasons {
        var e := ClassifyTxError(reasons);
        return Err(e);
      }
      otp.rows := otp.rows[p.hash := otp.rows[p.hash].(status := Verified)];
      users.rows := users.rows[p.userId := User(p.phone, p.now, p.now)];
      users.rows := users.rows[SentinelKey(p.phone) := Sentinel(p.phone, p.userId)];
      sessions.rows := sessions.rows[p.session.id := p.session];
      r := Ok(());
    }

    method VerifyOtpAndCreateSession(p: Login) returns (r: Result<()>)
      modifies otp, users, sessions
      ensures r == if MayLogin(old(View()), p) then Ok(()) else Err(ErrAlreadyExists)
      ensures View() == if MayLogin(old(View()), p) then ApplyLogin(old(View()), p) else old(View())
    {
      var reasons := LoginReasons(View(), p);
      LoginDecision(View(), p);
      if CHECK_FAILED in reasons {
        var e := ClassifyTxError(reasons);
        return Err(e);
      }
      otp.rows := otp.rows[p.hash := otp.rows[p.hash].(status := Verified)];
      sessions.rows := sessions.rows[p.session.id := p.session];
      r := Ok(());
    }
  }
}
