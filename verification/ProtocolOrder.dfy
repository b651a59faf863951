/** Creation times and the history: in benign runs the sessions of a phone carry creation times in the order of their
    commits, so evicting by creation time is evicting by the history. */
module ProtocolOrder {
  import opened Rfc3339
  import opened Tables
  import opened Records
  import opened Eviction
  import opened Protocol
  import opened ProtocolHistory
  import opened ProtocolLimit

  // ---------------------------------------------------------------- the invariant

  /** No session was created in the future. */
  ghost predicate NoneFromFuture(env: Env, w: World) {
    forall i | 0 <= i < |w.log| && w.log[i].Committed? :: !TextLess(Stamp(env, w.now), w.log[i].createdAt)
  }

  /** On one phone hash, a later commit does not carry an earlier creation time. */
  ghost predicate CommitsInOrder(w: World) {
    forall i, j, h | 0 <= i < j < |w.log| && CommitsOn(w.log[i], h) && CommitsOn(w.log[j], h) ::
      !TextLess(w.log[j].createdAt, w.log[i].createdAt)
  }

  /** Event `i` is the last commit of session `s`. */
  ghost predicate IsCommitOf(log: seq<Event>, i: int, s: Session) {
    && 0 <= i < |log| && log[i].Committed? && log[i].sessionId == s.id
    && log[i].userId == s.userId && log[i].deviceId == s.deviceId && log[i].createdAt == s.createdAt
    && forall j | i < j < |log| && log[j].Committed? :: log[j].sessionId != s.id
  }

  ghost predicate HasCommit(w: World, id: string)
    requires id in w.db.sessions
  {
    exists i :: IsCommitOf(w.log, i, w.db.sessions[id])
  }

  ghost predicate OrderOk(env: Env, w: World) {
    && NoneFromFuture(env, w) && CommitsInOrder(w)
    && forall id | id in w.db.sessions :: w.db.sessions[id].id == id && HasCommit(w, id)
  }

  /** A session about to be written is not from the future, and not older than what was committed before the read. */
  ghost predicate DrawnInOrder(env: Env, w: World, c: Ctx, s: Session) {
    && !TextLess(Stamp(env, w.now), s.createdAt) && c.readAt <= |w.log|
    && forall i | 0 <= i < c.readAt && CommitsOn(w.log[i], env.hash(c.phone)) ::
         !TextLess(s.createdAt, w.log[i].createdAt)
  }

  ghost predicate ProcInOrder(env: Env, w: World, p: Proc) {
    match p
    case Registering(c, r) => DrawnInOrder(env, w, c, r.session)
    case LoggingIn(c, _, _, l) => DrawnInOrder(env, w, c, l.session)
    case _ => true
  }

  ghost predicate OrderState(env: Env, s: State) {
    OrderOk(env, s.w) && forall q | q in s.procs :: ProcInOrder(env, s.w, s.procs[q])
  }

  // ---------------------------------------------------------------- time goes on

  lemma StampsGrow(env: Env, now: int, later: int)
    requires TextOk(env) && ClockOk(now) && ClockOk(later) && now <= later
    ensures !TextLess(Stamp(env, later), Stamp(env, now))
  {
    assert TextLess(env.text(SecondsOf(later)), env.text(SecondsOf(now))) <==> SecondsOf(later) < SecondsOf(now);
  }

  lemma NotFromFutureLater(env: Env, now: int, later: int, text: string)
    requires TextOk(env) && ClockOk(now) && ClockOk(later) && now <= later && !TextLess(Stamp(env, now), text)
    ensures !TextLess(Stamp(env, later), text)
  {
    StampsGrow(env, now, later);
    TextLessTransitive(Stamp(env, later), Stamp(env, now), text);
  }

  /** A waiting request is not disturbed. */
  lemma WaitingKeepsOrder(env: Env, w: World, w': World, p: Proc)
    requires TextOk(env) && ClockOk(w.now) && ClockOk(w'.now) && Grows(w, w') && ProcInOrder(env, w, p)
    ensures ProcInOrder(env, w', p)
  {
    if p.Registering? {
      NotFromFutureLater(env, w.now, w'.now, p.r.session.createdAt);
      assert forall i | 0 <= i < p.c.readAt :: w'.log[i] == w.log[i];
    } else if p.LoggingIn? {
      NotFromFutureLater(env, w.now, w'.now, p.l.session.createdAt);
      assert forall i | 0 <= i < p.c.readAt :: w'.log[i] == w.log[i];
    }
  }

  /** Steps without a commit. */
  lemma OtherKeepsOrder(env: Env, w: World, w': World)
    requires TextOk(env) && ClockOk(w.now) && ClockOk(w'.now) && Grows(w, w') && OrderOk(env, w)
    requires forall i | |w.log| <= i < |w'.log| :: !w'.log[i].Committed?
    requires forall id | id in w'.db.sessions ::
               id in w.db.sessions && SameOrigin(w.db.sessions[id], w'.db.sessions[id])
    ensures OrderOk(env, w')
  {
    forall i | 0 <= i < |w'.log| && w'.log[i].Committed?
      ensures !TextLess(Stamp(env, w'.now), w'.log[i].createdAt)
    {
      assert w'.log[i] == w.log[i];
      NotFromFutureLater(env, w.now, w'.now, w.log[i].createdAt);
    }
    forall id | id in w'.db.sessions
      ensures HasCommit(w', id)
    {
      assert HasCommit(w, id);
      var i :| IsCommitOf(w.log, i, w.db.sessions[id]);
      assert IsCommitOf(w'.log, i, w'.db.sessions[id]);
    }
  }

  ghost predicate SameOrigin(s: Session, s': Session) {
    s'.id == s.id && s'.userId == s.userId && s'.deviceId == s.deviceId && s'.createdAt == s.createdAt
  }

  /** A commit by a request whose lock is live. */
  lemma CommitKeepsOrder(env: Env, w: World, w': World, c: Ctx, e: Event, s: Session)
    requires OrderOk(env, w) && DrawnInOrder(env, w, c, s) && NoCommitSince(w.log, c.readAt, env.hash(c.phone))
    requires w'.now == w.now && w'.log == w.log + [e] && w'.db.sessions == w.db.sessions[s.id := s]
    requires e.Committed? && e.hash == env.hash(c.phone) && s.id !in w.db.sessions
    requires e.sessionId == s.id && e.userId == s.userId && e.deviceId == s.deviceId && e.createdAt == s.createdAt
    ensures OrderOk(env, w')
  {
    assert forall i | 0 <= i < |w.log| :: w'.log[i] == w.log[i];
    forall id | id in w'.db.sessions
      ensures w'.db.sessions[id].id == id && HasCommit(w', id)
    {
      if id == s.id {
        assert IsCommitOf(w'.log, |w.log|, s);
      } else {
        assert HasCommit(w, id);
        var i :| IsCommitOf(w.log, i, w.db.sessions[id]);
        assert IsCommitOf(w'.log, i, w'.db.sessions[id]);
      }
    }
  }

  // ---------------------------------------------------------------- one step

  lemma MoveKeepsOrder(env: Env, w: World, p: Proc, a: Action)
    requires Movable(env, w, p, a) && OrderOk(env, w) && ProcInOrder(env, w, p)
    ensures OrderOk(env, MoveWorld(env, w, p, a))
  {
    var w' := MoveWorld(env, w, p, a);
    MoveKeepsWorld(env, w, p, a);
    if p.Registering? && !a.Quit? && MayRegister(w.db, p.r) {
      CommitKeepsOrder(env, w, w', p.c, w'.log[|w.log|], p.r.session);
    } else if p.LoggingIn? && !a.Quit? && MayLogin(w.db, p.l) {
      CommitKeepsOrder(env, w, w', p.c, w'.log[|w.log|], p.l.session);
    } else {
      if !Writes(p) {
        ReadOnlyMove(env, w, p, a);
      }
      OtherKeepsOrder(env, w, w');
    }
  }

  /** A request that draws its session now draws it in order. */
  lemma DrawKeepsOrder(env: Env, w: World, p: Proc, a: Action)
    requires Movable(env, w, p, a) && OrderOk(env, w) && ProcInOrder(env, w, p)
    ensures ProcInOrder(env, MoveWorld(env, w, p, a), MoveProc(env, w, p, a))
  {
    TextLessIrreflexive(Stamp(env, w.now));
    if !Writes(p) || a.Quit? {
      ReadOnlyMove(env, w, p, a);
    }
  }

  lemma EnvironmentKeepsOrder(env: Env, s: State, step: Step)
    requires StateOk(env, s) && OrderOk(env, s.w) && Enabled(env, s, step) && !step.Move?
    ensures OrderOk(env, NextWorld(env, s, step))
  {
    StepKeepsWorld(env, s, step);
    OtherKeepsOrder(env, s.w, NextWorld(env, s, step));
  }

  lemma StepKeepsOrder(env: Env, s: State, step: Step)
    requires LimitState(env, s) && OrderState(env, s) && Enabled(env, s, step) && Benign(env, s, step)
    ensures OrderState(env, Next(env, s, step))
  {
    var s' := Next(env, s, step);
    StepKeepsState(env, s, step);
    if step.Move? {
      MoveKeepsOrder(env, s.w, s.procs[step.q], step.a);
    } else {
      EnvironmentKeepsOrder(env, s, step);
    }
    forall q | q in s'.procs
      ensures ProcInOrder(env, s'.w, s'.procs[q])
    {
      if step.Move? && step.q == q {
        DrawKeepsOrder(env, s.w, s.procs[q], step.a);
      } else if q in s.procs && s'.procs[q] == s.procs[q] {
        WaitingKeepsOrder(env, s.w, s'.w, s.procs[q]);
      }
    }
  }

  lemma {:induction false} RunKeepsOrder(env: Env, states: seq<State>, steps: seq<Step>, n: nat)
    requires TextOk(env) && IsBenignRun(env, states, steps) && n < |states|
    ensures OrderState(env, states[n])
  {
    if n > 0 {
      RunKeepsOrder(env, states, steps, n - 1);
      RunKeepsLimit(env, states, steps, n - 1);
      RunStep(env, states, steps, n - 1);
      StepKeepsOrder(env, states[n - 1], steps[n - 1]);
    }
  }

  // ---------------------------------------------------------------- theorems

  /** In every state of every benign run: of two stored sessions of one phone, the one whose commit is earlier in the
      history does not carry the later creation time. */
  lemma EarlierCommitIsNotYounger(env: Env, states: seq<State>, steps: seq<Step>, n: nat, id: string, id': string,
                                  i: nat, j: nat)
    requires TextOk(env) && IsBenignRun(env, states, steps) && n < |states|
    requires id in states[n].w.db.sessions && id' in states[n].w.db.sessions && i < j
    requires IsCommitOf(states[n].w.log, i, states[n].w.db.sessions[id])
    requires IsCommitOf(states[n].w.log, j, states[n].w.db.sessions[id'])
    requires states[n].w.log[i].hash == states[n].w.log[j].hash
    ensures !TextLess(states[n].w.db.sessions[id'].createdAt, states[n].w.db.sessions[id].createdAt)
  {
    RunKeepsOrder(env, states, steps, n);
    var log := states[n].w.log;
    assert CommitsOn(log[i], log[i].hash) && CommitsOn(log[j], log[i].hash);
  }

  /** So eviction follows the history: when a login splits the sessions on other devices, it evicts none that was
      committed later than one it keeps, unless both carry the same creation time. */
  lemma EvictionFollowsHistory(env: Env, states: seq<State>, steps: seq<Step>, n: nat, q: nat, a: Action, e: Session,
                               k: Session, i: nat, j: nat)
    requires TextOk(env) && IsBenignRun(env, states, steps) && n < |states|
    requires q in states[n].procs && states[n].procs[q].Querying? && a.Answer?
    requires CanMove(env, states[n].w, states[n].procs[q], a) && e in a.evicted && k in a.kept
    requires IsCommitOf(states[n].w.log, i, e) && IsCommitOf(states[n].w.log, j, k) && j < i
    requires states[n].w.log[i].hash == states[n].w.log[j].hash
    ensures e.createdAt == k.createdAt
  {
    var w, p := states[n].w, states[n].procs[q];
    SplitCovers(a.listed, p.c.device, a.evicted, a.kept);
    EarlierCommitIsNotYounger(env, states, steps, n, k.id, e.id, j, i);
    TextLessTotal(e.createdAt, k.createdAt);
  }
}
