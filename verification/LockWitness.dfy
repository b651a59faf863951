/** A run in which the optimistic lock is lost because a pair of digest and expiry is issued twice. */
module LockWitness {
  import opened Domain
  import opened Otp
  import opened Tables
  import opened Records
  import opened Eviction
  import opened Outcomes
  import opened Protocol
  import opened ProtocolTheorems
  import opened ProtocolPaths
  import opened SerialCalls
  import opened WitnessRuns

  // ---------------------------------------------------------------- a pair that is issued twice

  /** The pair that was read is there again after the registration; a login with it may commit. */
  function Reissued(env: Env, phone: string): Db {
    WithOtp(env, Registered(env, phone), phone, 0)
  }

  function LateLogin(env: Env, phone: string, c: Ctx): Login {
    Login(env.hash(phone), c.expiresAt, c.mac, RungOf(env, 1, Owner(), 0))
  }

  /** What the late request read: the row as it was before the registration. */
  function LateCtx(env: Env, phone: string, w: World): Ctx {
    ReadCtx(w, phone, Name(1), GenerateOtp(0), NewOtp(env, phone, GenerateOtp(0), 0))
  }

  lemma NothingToRemoveLate(env: Env, phone: string)
    ensures LoginTodo(Registered(env, phone).sessions, Owner(), Name(1), Stamp(env, 0), [])
  {
    var sessions := Registered(env, phone).sessions;
    NamesDiffer(0, 1);
    SubsetSize(Listable(sessions, Owner(), Stamp(env, 0)), {Name(0)});
    NothingToRemove(sessions, Owner(), Name(1), Stamp(env, 0));
  }

  /** From the lookup of the user to the point where the next step commits. */
  lemma LateToCommit(g: Stage, phone: string, w: World, c: Ctx) returns (keep: set<string>)
    requires w.db == Reissued(g.env, phone) && w.now == 0 && c.phone == phone && c.device == Name(1)
    ensures Leads(g, w, Finding(c, false), w, LoggingIn(c, Owner(), keep, LateLogin(g.env, phone, c)))
  {
    RegisteredIsLadder(g.env, phone);
    NothingToRemoveLate(g.env, phone);
    LeadsNowhere(g, w, Finding(c, false));
    keep := FindAndList(g, w, Finding(c, false), w, c, Owner(), []);
    assert Ids([]) == [];
    ThenMove(g, w, Finding(c, false), w, Evicting(c, Owner(), keep, []), DrawIds("", Name(1), Name(1)));
  }

  /** From its arrival to the point where the next step registers the user. */
  lemma EarlyToCommit(g: Stage, phone: string, w: World) returns (c: Ctx)
    requires TextOk(g.env) && w.db == WithOtp(g.env, EMPTY, phone, 0) && w.now == 0
    ensures c.phone == phone && c.device == Name(0)
    ensures Leads(g, w, Verifying(phone, GenerateOtp(0), Name(0)), w,
                  Registering(c, RegistrationOf(g.env, phone, w.db.otp[g.env.hash(phone)], Name(0), DrawnFor(0), 0)))
  {
    var p, row := Verifying(phone, GenerateOtp(0), Name(0)), w.db.otp[g.env.hash(phone)];
    WholeSecond(0);
    OwnerIsUuid();
    c := ReadCtx(w, phone, Name(0), GenerateOtp(0), row);
    FreshCodeIsRight(g.env, EMPTY, phone, 0);
    ReadAndCheck(g, w, phone, GenerateOtp(0), Name(0), row);
    ThenMove(g, w, p, w, Finding(c, false), Hit(None));
    ThenMove(g, w, p, w, NewUser(c), DrawIds(Owner(), Name(0), Name(0)));
  }

  lemma Arrives(env: Env, s: State, q: nat, p: Proc)
    requires Enabled(env, s, Arrive(q, p))
    ensures Reaches(env, false, s, At(Stage(env, false, s.procs, q), s.w, p))
  {
    OneStep(env, false, s, Arrive(q, p));
  }

  /** The late request arrives, reads the row and passes the checks. */
  lemma LateReads(env: Env, phone: string, s: State, q: nat)
    requires TextOk(env) && ValidPhone(phone) && q !in s.procs
    requires s.w.db == WithOtp(env, EMPTY, phone, 0) && s.w.now == 0
    ensures var g, p := Stage(env, false, s.procs, q), Verifying(phone, GenerateOtp(0), Name(1));
            && Reaches(env, false, s, At(g, s.w, p)) && Enabled(env, At(g, s.w, p), Move(q, Run))
            && Reaches(env, false, Next(env, At(g, s.w, p), Move(q, Run)),
                       At(g, s.w, Finding(LateCtx(env, phone, s.w), false)))
  {
    var g, p := Stage(env, false, s.procs, q), Verifying(phone, GenerateOtp(0), Name(1));
    var row, c := NewOtp(env, phone, GenerateOtp(0), 0), LateCtx(env, phone, s.w);
    Arrives(env, s, q, p);
    WholeSecond(0);
    FreshCodeIsRight(env, EMPTY, phone, 0);
    OneMove(g, s.w, Checking(c, row), Run);
    assert At(g, s.w, p).procs[q := Checking(c, row)] == s.procs[q := Checking(c, row)];
    assert Next(env, At(g, s.w, p), Move(q, Run)) == At(g, s.w, Checking(c, row));
  }

  lemma RegistrationCommits(env: Env, phone: string, w: World, c: Ctx, pairs: set<Pair>)
    requires w.db == WithOtp(env, EMPTY, phone, 0) && w.now == 0 && IssuedWithin(w.log, pairs)
    ensures var r := RegistrationOf(env, phone, w.db.otp[env.hash(phone)], Name(0), DrawnFor(0), 0);
            var w' := CommitRegistration(w, c, r);
            && MayRegister(w.db, r) && w'.db == Registered(env, phone) && w'.now == 0
            && IssuedWithin(w'.log, pairs) && GainsSession(w, w', phone)
  {
    RegisteredIsLadder(env, phone);
    assert IsRung(env, Registered(env, phone), 0, Owner(), 0);
  }

  /** Another request registers the user. */
  lemma EarlyCommits(env: Env, phone: string, s: State, q: nat, pairs: set<Pair>) returns (before: State, after: State)
    requires TextOk(env) && ValidPhone(phone) && q !in s.procs
    requires s.w.db == WithOtp(env, EMPTY, phone, 0) && s.w.now == 0 && IssuedWithin(s.w.log, pairs)
    ensures Reaches(env, false, s, before) && Enabled(env, before, Move(q, Run))
    ensures after == Next(env, before, Move(q, Run))
    ensures GainsSession(before.w, after.w, phone)
    ensures after.w.db == Registered(env, phone) && after.w.now == 0 && IssuedWithin(after.w.log, pairs)
    ensures after.procs == s.procs[q := Finished]
  {
    var g, p := Stage(env, false, s.procs, q), Verifying(phone, GenerateOtp(0), Name(0));
    Arrives(env, s, q, p);
    var c := EarlyToCommit(g, phone, s.w);
    var r := RegistrationOf(env, phone, s.w.db.otp[env.hash(phone)], Name(0), DrawnFor(0), 0);
    before := At(g, s.w, Registering(c, r));
    ReachesOn(env, false, s, At(g, s.w, p), before);
    after := Next(env, before, Move(q, Run));
    RegistrationCommits(env, phone, s.w, c, pairs);
    assert after.procs == s.procs[q := Finished];
  }

  /** The same code is drawn in the same second. */
  lemma PairIsReissued(env: Env, phone: string, s: State, q: nat, pairs: set<Pair>) returns (after: State)
    requires TextOk(env) && ValidPhone(phone) && q !in s.procs
    requires s.w.db == Registered(env, phone) && s.w.now == 0 && IssuedWithin(s.w.log, pairs)
    ensures Reaches(env, false, s, after)
    ensures after.w.db == Reissued(env, phone) && after.w.now == 0 && after.procs == s.procs[q := Finished]
  {
    var g := Stage(env, false, s.procs, q);
    WholeSecond(0);
    Arrives(env, s, q, Requesting(phone));
    RequestAlone(g, s.w, phone, 0, pairs);
    var w' :| Leads(g, s.w, Requesting(phone), w', Finished) && w'.db == Reissued(env, phone) && w'.now == s.w.now;
    after := At(g, w', Finished);
    ReachesOn(env, false, s, At(g, s.w, Requesting(phone)), after);
  }

  /** The late request goes on, and its next step commits. */
  lemma LateCommits(env: Env, phone: string, s: State, q: nat, c: Ctx) returns (before: State)
    requires q in s.procs && s.procs[q] == Finding(c, false) && c.phone == phone && c.device == Name(1)
    requires s.w.db == Reissued(env, phone) && s.w.now == 0
    requires c.mac == s.w.db.otp[env.hash(phone)].mac && c.expiresAt == s.w.db.otp[env.hash(phone)].expiresAt
    ensures Reaches(env, false, s, before) && Enabled(env, before, Move(q, Run)) && CommitsNow(before, Move(q, Run), q)
  {
    var g := Stage(env, false, s.procs, q);
    assert s.procs[q := Finding(c, false)] == s.procs;
    var keep := LateToCommit(g, phone, s.w, c);
    before := At(g, s.w, LoggingIn(c, Owner(), keep, LateLogin(env, phone, c)));
    NamesDiffer(0, 1);
  }

  /** A reachable state in which the OTP has just been stored. */
  lemma OtpIsStored(env: Env, phone: string) returns (s0: State, s: State, pairs: set<Pair>)
    requires TextOk(env) && ValidPhone(phone)
    ensures Initial(s0) && Reaches(env, false, s0, s)
    ensures s.w.db == WithOtp(env, EMPTY, phone, 0) && s.w.now == 0 && IssuedWithin(s.w.log, pairs)
  {
    WholeSecond(0);
    EmptyIsHosted(env, true, 0);
    CallIsHosted(env, true, EMPTY, Asks(phone), 0, WithOtp(env, EMPTY, phone, 0), {});
    pairs := {} + IssuedBy(env, EMPTY, Asks(phone), 0, WithOtp(env, EMPTY, phone, 0));
    s :| Reachable(env, true, s) && s.w.db == WithOtp(env, EMPTY, phone, 0) && s.w.now == 0
         && IssuedWithin(s.w.log, pairs);
    s0 :| Initial(s0) && Reaches(env, true, s0, s);
    ReachesRelaxed(env, s0, s);
  }

  /** The assumption that pairs are not issued again after a commit is needed: for every phone there is a run in which
      a request reads the OTP row, another session is created for the phone, the same pair is issued once more, and
      the request still commits. */
  lemma RepeatedPairLosesLock(env: Env, phone: string)
    returns (states: seq<State>, steps: seq<Protocol.Step>, q: nat, i: nat, k: nat, j: nat)
    requires TextOk(env) && ValidPhone(phone)
    ensures IsRun(env, states, steps) && i < k < j < |steps|
    ensures q in states[i].procs && states[i].procs[q].Verifying? && steps[i] == Move(q, Run)
    ensures states[i].procs[q].phone == phone && GainsSession(states[k].w, states[k + 1].w, phone)
    ensures CommitsNow(states[j], steps[j], q)
  {
    var s0, s, pairs := OtpIsStored(env, phone);
    q := FreshKey(s.procs.Keys);
    var g, c := Stage(env, false, s.procs, q), LateCtx(env, phone, s.w);
    var s1, s1' := At(g, s.w, Verifying(phone, GenerateOtp(0), Name(1))), At(g, s.w, Finding(c, false));
    LateReads(env, phone, s, q);
    ReachesOn(env, false, s0, s, s1);
    var q2 := FreshKey(s1'.procs.Keys);
    var s2, s2' := EarlyCommits(env, phone, s1', q2, pairs);
    ReachesOn(env, false, Next(env, s1, Move(q, Run)), s1', s2);
    var q3 := FreshKey(s2'.procs.Keys);
    var s3 := PairIsReissued(env, phone, s2', q3, pairs);
    var s4 := LateCommits(env, phone, s3, q, c);
    ReachesOn(env, false, s2', s3, s4);
    states, steps, i, k, j := RunThrough(env, s0, s1, Move(q, Run), s2, Move(q2, Run), s4, Move(q, Run));
  }
}
