/** Building runs: steps played one after the other, runs extended by what a single request does, and the way back
    from such paths to whole runs. */
module ProtocolPaths {
  import opened Records
  import opened Protocol
  import opened ProtocolLimit

  /** The state after `steps`. */
  function After(env: Env, s: State, steps: seq<Step>): State
    decreases |steps|
  {
    if steps == [] then s else After(env, Next(env, s, steps[0]), steps[1..])
  }

  /** The steps can be taken one after the other; when `strict`, each of them is benign. */
  ghost predicate Playable(env: Env, strict: bool, s: State, steps: seq<Step>)
    decreases |steps|
  {
    steps == [] || (&& Enabled(env, s, steps[0]) && (strict ==> Benign(env, s, steps[0]))
                    && Playable(env, strict, Next(env, s, steps[0]), steps[1..]))
  }

  ghost predicate Reaches(env: Env, strict: bool, s: State, s': State) {
    exists steps :: Playable(env, strict, s, steps) && After(env, s, steps) == s'
  }

  ghost predicate Reachable(env: Env, strict: bool, s: State) {
    exists s0 :: Initial(s0) && Reaches(env, strict, s0, s)
  }

  lemma {:induction false} PathsJoin(env: Env, strict: bool, s: State, first: seq<Step>, second: seq<Step>)
    ensures After(env, s, first + second) == After(env, After(env, s, first), second)
    ensures Playable(env, strict, s, first + second)
            <==> Playable(env, strict, s, first) && Playable(env, strict, After(env, s, first), second)
    decreases |first|
  {
    if first == [] {
      assert first + second == second;
    } else {
      assert (first + second)[1..] == first[1..] + second;
      PathsJoin(env, strict, Next(env, s, first[0]), first[1..], second);
    }
  }

  lemma ReachesItself(env: Env, strict: bool, s: State)
    ensures Reaches(env, strict, s, s)
  {
    assert Playable(env, strict, s, []) && After(env, s, []) == s;
  }

  lemma ReachesOn(env: Env, strict: bool, s: State, s': State, s'': State)
    requires Reaches(env, strict, s, s') && Reaches(env, strict, s', s'')
    ensures Reaches(env, strict, s, s'')
  {
    var first :| Playable(env, strict, s, first) && After(env, s, first) == s';
    var second :| Playable(env, strict, s', second) && After(env, s', second) == s'';
    PathsJoin(env, strict, s, first, second);
  }

  lemma ReachableOn(env: Env, strict: bool, s: State, s': State)
    requires Reachable(env, strict, s) && Reaches(env, strict, s, s')
    ensures Reachable(env, strict, s')
  {
    var s0 :| Initial(s0) && Reaches(env, strict, s0, s);
    ReachesOn(env, strict, s0, s, s');
  }

  lemma OneStep(env: Env, strict: bool, s: State, step: Step)
    requires Enabled(env, s, step) && (strict ==> Benign(env, s, step))
    ensures Reaches(env, strict, s, Next(env, s, step))
  {
    assert [step][1..] == [];
    assert Playable(env, strict, Next(env, s, step), []);
    assert Playable(env, strict, s, [step]) && After(env, s, [step]) == Next(env, s, step);
  }

  // ---------------------------------------------------------------- back to runs

  /** All states on the way. */
  function StatesOn(env: Env, s: State, steps: seq<Step>): (states: seq<State>)
    ensures |states| == |steps| + 1
  {
    seq(|steps| + 1, i requires 0 <= i <= |steps| => After(env, s, steps[..i]))
  }

  lemma NextOnPath(env: Env, strict: bool, s: State, steps: seq<Step>, i: nat)
    requires Playable(env, strict, s, steps) && i < |steps|
    ensures var at := After(env, s, steps[..i]);
            && Enabled(env, at, steps[i]) && (strict ==> Benign(env, at, steps[i]))
            && After(env, s, steps[..i + 1]) == Next(env, at, steps[i])
  {
    assert steps[..i + 1] == steps[..i] + [steps[i]];
    assert steps == steps[..i] + steps[i..];
    PathsJoin(env, strict, s, steps[..i], steps[i..]);
    PathsJoin(env, strict, s, steps[..i], [steps[i]]);
    assert [steps[i]][1..] == [];
  }

  /** A path from an initial state is a run. */
  lemma PathIsRun(env: Env, strict: bool, s: State, steps: seq<Step>)
    requires Initial(s) && Playable(env, strict, s, steps)
    ensures IsRun(env, StatesOn(env, s, steps), steps)
    ensures strict ==> IsBenignRun(env, StatesOn(env, s, steps), steps)
    ensures StatesOn(env, s, steps)[|steps|] == After(env, s, steps)
  {
    var states := StatesOn(env, s, steps);
    forall i | 0 <= i < |steps|
      ensures Transition(env, states[i], steps[i], states[i + 1])
      ensures strict ==> Benign(env, states[i], steps[i])
    {
      NextOnPath(env, strict, s, steps, i);
    }
    assert steps[..0] == [] && steps[..|steps|] == steps;
  }

  /** Every reachable state ends a run. */
  lemma ReachableByRun(env: Env, strict: bool, s: State) returns (states: seq<State>, steps: seq<Step>)
    requires Reachable(env, strict, s)
    ensures IsRun(env, states, steps) && states[|steps|] == s
    ensures strict ==> IsBenignRun(env, states, steps)
  {
    var s0 :| Initial(s0) && Reaches(env, strict, s0, s);
    steps :| Playable(env, strict, s0, steps) && After(env, s0, steps) == s;
    PathIsRun(env, strict, s0, steps);
    states := StatesOn(env, s0, steps);
  }

  /** Three steps with paths between them, in one run. */
  lemma RunThrough(env: Env, s0: State, s1: State, a1: Step, s2: State, a2: Step, s3: State, a3: Step)
    returns (states: seq<State>, steps: seq<Step>, i: nat, k: nat, j: nat)
    requires Initial(s0) && Reaches(env, false, s0, s1)
    requires Enabled(env, s1, a1) && Reaches(env, false, Next(env, s1, a1), s2)
    requires Enabled(env, s2, a2) && Reaches(env, false, Next(env, s2, a2), s3)
    requires Enabled(env, s3, a3)
    ensures IsRun(env, states, steps) && i < k < j < |steps|
    ensures states[i] == s1 && steps[i] == a1
    ensures states[k] == s2 && steps[k] == a2 && states[k + 1] == Next(env, s2, a2)
    ensures states[j] == s3 && steps[j] == a3
  {
    var x :| Playable(env, false, s0, x) && After(env, s0, x) == s1;
    var y := ThenStep(env, s0, x, a1, s2);
    var z := ThenStep(env, s0, y, a2, s3);
    ReachesItself(env, false, Next(env, s3, a3));
    steps := ThenStep(env, s0, z, a3, Next(env, s3, a3));
    states, i, k, j := StatesOn(env, s0, steps), |x|, |y|, |z|;
    PathIsRun(env, false, s0, steps);
    assert x == steps[..i] && y == steps[..k] && z == steps[..j];
    RunStep(env, states, steps, k);
  }

  /** A path, one step, and a path from there to `s'`, in one. */
  lemma ThenStep(env: Env, s: State, first: seq<Step>, step: Step, s': State) returns (steps: seq<Step>)
    requires Playable(env, false, s, first) && Enabled(env, After(env, s, first), step)
    requires Reaches(env, false, Next(env, After(env, s, first), step), s')
    ensures first < steps && steps[|first|] == step
    ensures Playable(env, false, s, steps) && After(env, s, steps) == s'
  {
    var next := Next(env, After(env, s, first), step);
    var second :| Playable(env, false, next, second) && After(env, next, second) == s';
    steps := first + ([step] + second);
    assert ([step] + second)[1..] == second;
    PathsJoin(env, false, s, first, [step] + second);
  }

  /** A strict path is a path. */
  lemma {:induction false} Relaxed(env: Env, s: State, steps: seq<Step>)
    requires Playable(env, true, s, steps)
    ensures Playable(env, false, s, steps)
    decreases |steps|
  {
    if steps != [] {
      Relaxed(env, Next(env, s, steps[0]), steps[1..]);
    }
  }

  lemma ReachesRelaxed(env: Env, s: State, s': State)
    requires Reaches(env, true, s, s')
    ensures Reaches(env, false, s, s')
  {
    var steps :| Playable(env, true, s, steps) && After(env, s, steps) == s';
    Relaxed(env, s, steps);
  }

  // ---------------------------------------------------------------- one request on its own

  /** Where a request `q` moves while the others wait. */
  datatype Stage = Stage(env: Env, strict: bool, others: map<nat, Proc>, q: nat)

  function At(g: Stage, w: World, p: Proc): State {
    State(w, g.others[g.q := p])
  }

  /** The request can go from `p` in `w` to `p'` in `w'` on its own. */
  ghost predicate Leads(g: Stage, w: World, p: Proc, w': World, p': Proc) {
    Reaches(g.env, g.strict, At(g, w, p), At(g, w', p'))
  }

  lemma LeadsNowhere(g: Stage, w: World, p: Proc)
    ensures Leads(g, w, p, w, p)
  {
    ReachesItself(g.env, g.strict, At(g, w, p));
  }

  lemma LeadsOn(g: Stage, w: World, p: Proc, w': World, p': Proc, w'': World, p'': Proc)
    requires Leads(g, w, p, w', p') && Leads(g, w', p', w'', p'')
    ensures Leads(g, w, p, w'', p'')
  {
    ReachesOn(g.env, g.strict, At(g, w, p), At(g, w', p'), At(g, w'', p''));
  }

  lemma OneMove(g: Stage, w: World, p: Proc, a: Action)
    requires CanMove(g.env, w, p, a)
    requires g.strict && p.Putting? && !a.Quit? ==> PutsUnspentPair(g.env, w, p)
    ensures Leads(g, w, p, MoveWorld(g.env, w, p, a), MoveProc(g.env, w, p, a))
  {
    var s, step := At(g, w, p), Move(g.q, a);
    OneStep(g.env, g.strict, s, step);
    var p' := MoveProc(g.env, w, p, a);
    assert s.procs[g.q := p'] == g.others[g.q := p'];
  }

  /** One more step of a request that has come this far. */
  lemma ThenMove(g: Stage, w0: World, p0: Proc, w: World, p: Proc, a: Action)
    requires Leads(g, w0, p0, w, p) && CanMove(g.env, w, p, a)
    requires g.strict && p.Putting? && !a.Quit? ==> PutsUnspentPair(g.env, w, p)
    ensures Leads(g, w0, p0, MoveWorld(g.env, w, p, a), MoveProc(g.env, w, p, a))
  {
    OneMove(g, w, p, a);
    LeadsOn(g, w0, p0, w, p, MoveWorld(g.env, w, p, a), MoveProc(g.env, w, p, a));
  }
}
