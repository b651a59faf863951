/** The refresh chain is a view of the service: any sequence of whole calls is a run of logins, refreshes and closings,
    if identifiers and tokens are drawn afresh, and every call has its place in that run. So the theorems about the
    chain become theorems about the service. */
module SerialChain {
  import opened Domain
  import opened Tables
  import opened Records
  import opened Outcomes
  import opened RefreshChain
  import opened SerialCalls

  // ---------------------------------------------------------------- runs of the chain

  type Chain = seq<RefreshChain.Call>

  function BookAfter(env: Env, chain: Chain): Book {
    if chain == [] then Book(map[], map[])
    else Step(env, BookAfter(env, chain[..|chain| - 1]), chain[|chain| - 1])
  }

  ghost predicate AllFresh(env: Env, chain: Chain) {
    forall i :: 0 <= i < |chain| ==> Fresh(BookAfter(env, chain[..i]), chain[i])
  }

  lemma AppendCall(env: Env, chain: Chain, call: RefreshChain.Call)
    requires AllFresh(env, chain) && Fresh(BookAfter(env, chain), call)
    ensures AllFresh(env, chain + [call]) && BookAfter(env, chain + [call]) == Step(env, BookAfter(env, chain), call)
  {
    var more := chain + [call];
    assert more[..|chain|] == chain;
    forall i | 0 <= i < |more|
      ensures Fresh(BookAfter(env, more[..i]), more[i])
    {
      assert i < |chain| ==> more[..i] == chain[..i];
    }
  }

  /** All books on the way. */
  function Books(env: Env, chain: Chain): (books: seq<Book>)
    ensures |books| == |chain| + 1
  {
    seq(|chain| + 1, i requires 0 <= i <= |chain| => BookAfter(env, chain[..i]))
  }

  lemma FreshIsRun(env: Env, chain: Chain)
    requires AllFresh(env, chain)
    ensures IsRun(env, Books(env, chain), chain)
  {
    var books := Books(env, chain);
    assert chain[..0] == [];
    forall i | 0 <= i < |chain|
      ensures Transition(env, books[i], chain[i], books[i + 1])
    {
      assert chain[..i + 1][..i] == chain[..i];
    }
  }

  // ---------------------------------------------------------------- one whole call

  function DrawnIds(call: ServiceCall): set<string> {
    if call.Verify? then {call.drawn.sessionId, call.drawn.loginSessionId} else {}
  }

  function DrawnTokens(call: ServiceCall): set<string> {
    match call
    case Verify(_, _, _, drawn, _) => {drawn.token, drawn.loginToken}
    case Refresh(_, _, _, next) => {next}
    case _ => {}
  }

  /** The histories name these identifiers and tokens only. */
  ghost predicate Within(b: Book, ids: set<string>, tokens: set<string>) {
    b.issued.Keys <= ids && forall id | id in b.issued :: forall token | token in b.issued[id] :: token in tokens
  }

  /** The chain, so far, has these sessions and has issued nothing but these identifiers and tokens. */
  ghost predicate Shows(env: Env, chain: Chain, sessions: map<string, Session>, ids: set<string>, tokens: set<string>) {
    AllFresh(env, chain) && BookAfter(env, chain).sessions == sessions && Within(BookAfter(env, chain), ids, tokens)
  }

  lemma ShowsMore(env: Env, chain: Chain, sessions: map<string, Session>, ids: set<string>, tokens: set<string>,
                  ids': set<string>, tokens': set<string>)
    requires Shows(env, chain, sessions, ids, tokens) && ids <= ids' && tokens <= tokens'
    ensures Shows(env, chain, sessions, ids', tokens')
  {
  }

  lemma {:induction false} CloseAll(env: Env, chain: Chain, sessions: map<string, Session>, removed: set<string>,
                                    ids: set<string>, tokens: set<string>) returns (more: Chain)
    requires Shows(env, chain, sessions, ids, tokens)
    ensures chain <= more && Shows(env, more, sessions - removed, ids, tokens)
    decreases removed
  {
    if removed == {} {
      more := chain;
      assert sessions - removed == sessions;
    } else {
      var id :| id in removed;
      var front := CloseAll(env, chain, sessions, removed - {id}, ids, tokens);
      AppendCall(env, front, Close(id));
      more := front + [Close(id)];
      assert sessions - (removed - {id}) - {id} == sessions - removed;
    }
  }

  lemma OpenOne(env: Env, chain: Chain, sessions: map<string, Session>, ids: set<string>, tokens: set<string>,
                id: string, user: string, device: string, token: string, now: int) returns (more: Chain)
    requires Shows(env, chain, sessions, ids, tokens) && id !in ids && token !in tokens
    ensures chain <= more
    ensures Shows(env, more, sessions[id := NewSession(env, id, user, device, token, now)],
                  ids + {id}, tokens + {token})
  {
    var call, b := Open(id, user, device, token, now), BookAfter(env, chain);
    AppendCall(env, chain, call);
    more := chain + [call];
    forall x | x in Step(env, b, call).issued
      ensures forall t | t in Step(env, b, call).issued[x] :: t in tokens + {token}
    {
    }
  }

  lemma PresentOne(env: Env, chain: Chain, sessions: map<string, Session>, ids: set<string>, tokens: set<string>,
                   id: string, device: string, token: string, next: string, now: int) returns (more: Chain)
    requires Shows(env, chain, sessions, ids, tokens) && next !in tokens
    ensures more == chain + [Present(id, device, token, next, now)]
    ensures var d := Decide(env, sessions, id, device, token, now);
            Shows(env, more, AfterRefresh(env, sessions, id, d, next, now), ids, tokens + {next})
  {
    var call := Present(id, device, token, next, now);
    AppendCall(env, chain, call);
    more := chain + [call];
  }

  /** A login removes sessions and may open one. */
  lemma LoginIsShown(env: Env, chain: Chain, before: Db, after: Db, hash: string, record: OtpRow, user: string,
                     device: string, drawn: Drawn, revoke: Replies, now: int, r: Result<VerifyResult>,
                     removed: set<string>, ids: set<string>, tokens: set<string>) returns (more: Chain)
    requires Shows(env, chain, before.sessions, ids, tokens)
    requires drawn.loginSessionId !in ids && drawn.loginToken !in tokens
    requires LoginOutcome(env, before, after, hash, record, user, device, drawn, revoke, now, r, removed)
    ensures chain <= more
    ensures Shows(env, more, after.sessions, ids + {drawn.loginSessionId}, tokens + {drawn.loginToken})
  {
    var id, token, left := drawn.loginSessionId, drawn.loginToken, before.sessions - removed;
    more := CloseAll(env, chain, before.sessions, removed, ids, tokens);
    if r.Ok? {
      more := OpenOne(env, more, left, ids, tokens, id, user, device, token, now);
    } else {
      ShowsMore(env, more, left, ids, tokens, ids + {id}, tokens + {token});
    }
  }

  /** A verification, successful or not, is a sequence of closings and at most one login of the chain. */
  lemma VerificationIsShown(env: Env, chain: Chain, before: Db, call: ServiceCall, now: int, after: Db,
                            ids: set<string>, tokens: set<string>) returns (more: Chain)
    requires Shows(env, chain, before.sessions, ids, tokens) && call.Verify?
    requires Effect(env, before, call, now, after) && after.sessions != before.sessions
    requires DrawnIds(call) !! ids && DrawnTokens(call) !! tokens
    ensures chain <= more && Shows(env, more, after.sessions, ids + DrawnIds(call), tokens + DrawnTokens(call))
  {
    var drawn, row, revoke := call.drawn, before.otp[env.hash(call.phone)], call.replies.revoke;
    var r, removed :| Completion(env, before, after, call.phone, row, call.device, drawn, revoke, now, r, removed);
    if Unregistered(before.users, call.phone) {
      more := OpenOne(env, chain, before.sessions, ids, tokens, drawn.sessionId, drawn.userId, call.device, drawn.token,
                      now);
      ShowsMore(env, more, after.sessions, ids + {drawn.sessionId}, tokens + {drawn.token},
                ids + DrawnIds(call), tokens + DrawnTokens(call));
    } else {
      var user :| && user in before.users && before.users[user].phone == call.phone
                  && LoginOutcome(env, before, after, env.hash(call.phone), row, user, call.device, drawn, revoke, now,
                                  r, removed);
      more := LoginIsShown(env, chain, before, after, env.hash(call.phone), row, user, call.device, drawn, revoke, now,
                           r, removed, ids, tokens);
      ShowsMore(env, more, after.sessions, ids + {drawn.loginSessionId}, tokens + {drawn.loginToken},
                ids + DrawnIds(call), tokens + DrawnTokens(call));
    }
  }

  /** The call of the chain that an effective refresh is. */
  function PresentOf(call: ServiceCall, now: int): RefreshChain.Call
    requires call.Refresh?
  {
    Present(call.id, call.device, call.token, call.next, now)
  }

  lemma CallIsShown(env: Env, chain: Chain, before: Db, call: ServiceCall, now: int, after: Db, ids: set<string>,
                    tokens: set<string>) returns (more: Chain)
    requires Shows(env, chain, before.sessions, ids, tokens) && Effect(env, before, call, now, after)
    requires DrawnIds(call) !! ids && DrawnTokens(call) !! tokens
    ensures chain <= more && Shows(env, more, after.sessions, ids + DrawnIds(call), tokens + DrawnTokens(call))
    ensures call.Refresh? && after != before ==> more == chain + [PresentOf(call, now)]
  {
    if call.Refresh? && after != before {
      more := PresentOne(env, chain, before.sessions, ids, tokens, call.id, call.device, call.token, call.next, now);
      assert ids + DrawnIds(call) == ids;
    } else if after.sessions == before.sessions {
      more := chain;
      ShowsMore(env, more, after.sessions, ids, tokens, ids + DrawnIds(call), tokens + DrawnTokens(call));
    } else if call.Verify? {
      more := VerificationIsShown(env, chain, before, call, now, after, ids, tokens);
    } else {
      more := CloseAll(env, chain, before.sessions, {call.id}, ids, tokens);
      ShowsMore(env, more, after.sessions, ids, tokens, ids + DrawnIds(call), tokens + DrawnTokens(call));
    }
  }

  // ---------------------------------------------------------------- whole serial runs

  /** No identifier and no token is drawn by two calls. */
  ghost predicate DrawnAfresh(calls: seq<Timed>) {
    forall i, j :: 0 <= i < j < |calls| ==>
      DrawnIds(calls[i].call) !! DrawnIds(calls[j].call) && DrawnTokens(calls[i].call) !! DrawnTokens(calls[j].call)
  }

  function AllIds(calls: seq<Timed>): set<string> {
    set i, id | 0 <= i < |calls| && id in DrawnIds(calls[i].call) :: id
  }

  function AllTokens(calls: seq<Timed>): set<string> {
    set i, token | 0 <= i < |calls| && token in DrawnTokens(calls[i].call) :: token
  }

  lemma AllDrawnAppend(calls: seq<Timed>, n: nat)
    requires n < |calls|
    ensures AllIds(calls[..n + 1]) == AllIds(calls[..n]) + DrawnIds(calls[n].call)
    ensures AllTokens(calls[..n + 1]) == AllTokens(calls[..n]) + DrawnTokens(calls[n].call)
  {
    assert calls[..n + 1] == calls[..n] + [calls[n]];
  }

  lemma DrawnBefore(calls: seq<Timed>, n: nat)
    requires DrawnAfresh(calls) && n < |calls|
    ensures DrawnIds(calls[n].call) !! AllIds(calls[..n]) && DrawnTokens(calls[n].call) !! AllTokens(calls[..n])
  {
  }

  /** Call `i` is a refresh that rotates a token or detects its reuse. */
  ghost predicate RefreshTakesEffect(dbs: seq<Db>, calls: seq<Timed>, i: nat)
    requires |dbs| == |calls| + 1 && i < |calls|
  {
    calls[i].call.Refresh? && dbs[i + 1] != dbs[i]
  }

  /** The calls before number `i` are those of the chain before `at[i]`: the sessions agree at these places, and an
      effective refresh is the one call of the chain at its place. */
  ghost predicate IsPlace(env: Env, dbs: seq<Db>, calls: seq<Timed>, chain: Chain, at: seq<nat>, i: nat)
    requires |dbs| == |calls| + 1 && i < |at| <= |dbs|
  {
    && at[i] <= |chain| && BookAfter(env, chain[..at[i]]).sessions == dbs[i].sessions
    && (i + 1 < |at| ==> at[i] <= at[i + 1])
    && (i + 1 < |at| && RefreshTakesEffect(dbs, calls, i) ==>
          at[i] < |chain| && at[i + 1] == at[i] + 1 && chain[at[i]] == PresentOf(calls[i].call, calls[i].now))
  }

  ghost predicate Placed(env: Env, dbs: seq<Db>, calls: seq<Timed>, chain: Chain, at: seq<nat>)
    requires |dbs| == |calls| + 1 && |at| <= |dbs|
  {
    forall i: nat | i < |at| :: IsPlace(env, dbs, calls, chain, at, i)
  }

  lemma PlacedOn(env: Env, dbs: seq<Db>, calls: seq<Timed>, chain: Chain, at: seq<nat>, more: Chain)
    requires |dbs| == |calls| + 1 && 0 < |at| < |dbs| && Placed(env, dbs, calls, chain, at) && at[|at| - 1] == |chain|
    requires chain <= more && BookAfter(env, more).sessions == dbs[|at|].sessions
    requires RefreshTakesEffect(dbs, calls, |at| - 1) ==>
               more == chain + [PresentOf(calls[|at| - 1].call, calls[|at| - 1].now)]
    ensures Placed(env, dbs, calls, more, at + [|more|])
  {
    var at' := at + [|more|];
    assert more[..|more|] == more;
    forall i: nat | i < |at'|
      ensures IsPlace(env, dbs, calls, more, at', i)
    {
      if i < |at| {
        assert IsPlace(env, dbs, calls, chain, at, i);
        assert more[..at[i]] == chain[..at[i]];
      }
    }
  }

  lemma NextIsShown(env: Env, dbs: seq<Db>, calls: seq<Timed>, n: nat, front: Chain) returns (chain: Chain)
    requires IsSerialRun(env, dbs, calls) && DrawnAfresh(calls) && n < |calls|
    requires Shows(env, front, dbs[n].sessions, AllIds(calls[..n]), AllTokens(calls[..n]))
    ensures Shows(env, chain, dbs[n + 1].sessions, AllIds(calls[..n + 1]), AllTokens(calls[..n + 1])) && front <= chain
    ensures RefreshTakesEffect(dbs, calls, n) ==> chain == front + [PresentOf(calls[n].call, calls[n].now)]
  {
    assert CallStep(env, dbs[n], calls[n], dbs[n + 1]);
    DrawnBefore(calls, n);
    chain := CallIsShown(env, front, dbs[n], calls[n].call, calls[n].now, dbs[n + 1],
                         AllIds(calls[..n]), AllTokens(calls[..n]));
    AllDrawnAppend(calls, n);
  }

  lemma {:induction false} SerialRunIsShown(env: Env, dbs: seq<Db>, calls: seq<Timed>, n: nat)
    returns (chain: Chain, at: seq<nat>)
    requires IsSerialRun(env, dbs, calls) && DrawnAfresh(calls) && n <= |calls|
    ensures Shows(env, chain, dbs[n].sessions, AllIds(calls[..n]), AllTokens(calls[..n]))
    ensures |at| == n + 1 && at[n] == |chain| && Placed(env, dbs, calls, chain, at)
  {
    if n == 0 {
      chain, at := [], [0];
    } else {
      var front, places := SerialRunIsShown(env, dbs, calls, n - 1);
      chain := NextIsShown(env, dbs, calls, n - 1, front);
      at := places + [|chain|];
      PlacedOn(env, dbs, calls, front, places, chain);
    }
  }

  /** Any serial run of whole calls is a run of the refresh chain in which every call has its place. */
  lemma SerialRunIsChainRun(env: Env, dbs: seq<Db>, calls: seq<Timed>) returns (chain: Chain, at: seq<nat>)
    requires IsSerialRun(env, dbs, calls) && DrawnAfresh(calls)
    ensures IsRun(env, Books(env, chain), chain)
    ensures |at| == |dbs| && Placed(env, dbs, calls, chain, at)
  {
    chain, at := SerialRunIsShown(env, dbs, calls, |calls|);
    FreshIsRun(env, chain);
  }

  lemma {:induction false} PlacesGrow(env: Env, dbs: seq<Db>, calls: seq<Timed>, chain: Chain, at: seq<nat>,
                                      i: nat, j: nat)
    requires |dbs| == |calls| + 1 && |at| == |dbs| && Placed(env, dbs, calls, chain, at) && i <= j < |at|
    ensures at[i] <= at[j] <= |chain|
  {
    assert IsPlace(env, dbs, calls, chain, at, j);
    if i < j {
      PlacesGrow(env, dbs, calls, chain, at, i, j - 1);
      assert IsPlace(env, dbs, calls, chain, at, j - 1);
    }
  }

  // ---------------------------------------------------------------- theorems about the service

  /** Call `i` is a refresh that accepts its token and rotates it. */
  ghost predicate AcceptsToken(env: Env, dbs: seq<Db>, calls: seq<Timed>, i: nat)
    requires |dbs| == |calls| + 1 && i < |calls|
  {
    && RefreshTakesEffect(dbs, calls, i)
    && Decide(env, dbs[i].sessions, calls[i].call.id, calls[i].call.device, calls[i].call.token, calls[i].now).Rotate?
  }

  lemma AcceptanceIsPlaced(env: Env, dbs: seq<Db>, calls: seq<Timed>, chain: Chain, at: seq<nat>, i: nat)
    requires |dbs| == |calls| + 1 && |at| == |dbs| && Placed(env, dbs, calls, chain, at) && i < |calls|
    requires AcceptsToken(env, dbs, calls, i)
    ensures at[i] < |chain| && at[i + 1] == at[i] + 1 && chain[at[i]] == PresentOf(calls[i].call, calls[i].now)
    ensures Accepts(env, Books(env, chain)[at[i]], chain[at[i]])
  {
    assert IsPlace(env, dbs, calls, chain, at, i);
  }

  lemma PlacedAcceptsOnce(env: Env, dbs: seq<Db>, calls: seq<Timed>, chain: Chain, at: seq<nat>, i: nat, j: nat)
    requires |dbs| == |calls| + 1 && |at| == |dbs| && Placed(env, dbs, calls, chain, at) && i < j < |calls|
    requires IsRun(env, Books(env, chain), chain)
    requires AcceptsToken(env, dbs, calls, i) && AcceptsToken(env, dbs, calls, j)
    ensures calls[i].call.token != calls[j].call.token
  {
    AcceptanceIsPlaced(env, dbs, calls, chain, at, i);
    AcceptanceIsPlaced(env, dbs, calls, chain, at, j);
    PlacesGrow(env, dbs, calls, chain, at, i + 1, j);
    AcceptedAtMostOnce(env, Books(env, chain), chain, at[i], at[j]);
  }

  /** Over any serial run of whole calls of the service, no refresh token is accepted twice. */
  lemma ServiceAcceptsOnce(env: Env, dbs: seq<Db>, calls: seq<Timed>, i: nat, j: nat)
    requires IsSerialRun(env, dbs, calls) && DrawnAfresh(calls) && i < j < |calls|
    requires AcceptsToken(env, dbs, calls, i) && AcceptsToken(env, dbs, calls, j)
    ensures calls[i].call.token != calls[j].call.token
  {
    var chain, at := SerialRunIsChainRun(env, dbs, calls);
    PlacedAcceptsOnce(env, dbs, calls, chain, at, i, j);
  }

  /** Over any serial run of whole calls, a session that is gone, by reuse, logout, eviction or TTL, never comes back,
      so no later refresh on it takes effect. */
  lemma ServiceClosesForGood(env: Env, dbs: seq<Db>, calls: seq<Timed>, id: string, l: nat, m: nat, n: nat)
    requires IsSerialRun(env, dbs, calls) && DrawnAfresh(calls) && l <= m <= n < |dbs|
    requires id in dbs[l].sessions && id !in dbs[m].sessions
    ensures id !in dbs[n].sessions
  {
    var chain, at := SerialRunIsChainRun(env, dbs, calls);
    var books := Books(env, chain);
    assert IsPlace(env, dbs, calls, chain, at, l) && IsPlace(env, dbs, calls, chain, at, m);
    assert IsPlace(env, dbs, calls, chain, at, n);
    PlacesGrow(env, dbs, calls, chain, at, l, m);
    PlacesGrow(env, dbs, calls, chain, at, m, n);
    RunKeepsBook(env, books, chain, at[l]);
    HistoryGrows(env, books, chain, at[l], at[m]);
    ClosedStaysClosed(env, books, chain, id, at[m], at[n]);
  }
}
