/** Refresh-token rotation with reuse detection (section 5.2.2.3 of RFC 6819), over serial runs.

Each session keeps the hash of its current token and of the one before. The history of all tokens issued
for a session is recorded beside the table and outlives the session; the code never reads it.
*/
module RefreshChain {
  import opened Domain
  import opened Tables
  import opened Records

  datatype Decision = NoSession | WrongDevice | Unreadable | Expired | Rotate | Reuse | Invalid

  /** What a refresh of session `id` decides, in the order of the checks. */
  function Decide(env: Env, sessions: map<string, Session>, id: string, device: string, token: string, now: int)
    : Decision
  {
    if id !in sessions then NoSession
    else
      var s := sessions[id];
      if s.deviceId != device then WrongDevice
      else if env.read(s.expiresAt).None? then Unreadable
      else if ExpiredAt(env, s.expiresAt, now) then Expired
      else if Sha256(token) == s.refreshHash then Rotate
      else if s.prevHash != NoHash && Sha256(token) == s.prevHash then Reuse
      else Invalid
  }

  function DecisionError(d: Decision): Error
    requires !d.Rotate?
  {
    match d
    case NoSession => ErrSessionRevoked
    case WrongDevice => ErrDeviceMismatch
    case Unreadable => ErrParse
    case Expired => ErrSessionExpired
    case Reuse => ErrRefreshTokenReuse
    case Invalid => ErrInvalidRefreshToken
  }

  /** The session that a refresh names can be used: it is there, bound to the device and, to the very instant of its
      expiry, not expired. */
  ghost predicate Usable(env: Env, sessions: map<string, Session>, id: string, device: string, now: int) {
    && id in sessions && sessions[id].deviceId == device
    && env.read(sessions[id].expiresAt).Some? && now <= env.read(sessions[id].expiresAt).value * NANOS
  }

  /** When each answer is given, said by the session alone: another device never gets past its own error, and only the
      current and the previous token have an effect. */
  lemma RefreshAnswers(env: Env, sessions: map<string, Session>, id: string, device: string, token: string, now: int)
    ensures var d := Decide(env, sessions, id, device, token, now);
            var usable := Usable(env, sessions, id, device, now);
            && (d.Rotate? <==> usable && sessions[id].refreshHash == Sha256(token))
            && (d.Reuse? <==> && usable && sessions[id].refreshHash != Sha256(token)
                              && sessions[id].prevHash == Sha256(token))
            && (id !in sessions <==> !d.Rotate? && DecisionError(d) == ErrSessionRevoked)
            && (id in sessions && sessions[id].deviceId != device <==>
                  !d.Rotate? && DecisionError(d) == ErrDeviceMismatch)
            && (usable && !d.Rotate? ==>
                  DecisionError(d) == if d.Reuse? then ErrRefreshTokenReuse else ErrInvalidRefreshToken)
            && (id in sessions && sessions[id].deviceId == device && !usable ==>
                  && !d.Rotate?
                  && DecisionError(d) == if env.read(sessions[id].expiresAt).None? then ErrParse else ErrSessionExpired)
  {
  }

  /** The sessions after a refresh that drew `drawn` as the next token. */
  function AfterRefresh(env: Env, sessions: map<string, Session>, id: string, d: Decision, drawn: string, now: int)
    : map<string, Session>
    requires d.Rotate? || d.Reuse? ==> id in sessions
  {
    if d.Rotate? then sessions[id := Rotated(env, sessions[id], drawn, now)]
    else if d.Reuse? then sessions - {id}
    else sessions
  }

  // ---------------------------------------------------------------- serial runs

  datatype Book = Book(sessions: map<string, Session>, issued: map<string, seq<string>>)

  datatype Call =
    | Open(id: string, user: string, device: string, token: string, now: int)
    | Present(id: string, device: string, token: string, drawn: string, now: int)
    | Close(id: string)

  /** Identifiers and tokens are drawn at random and have never been drawn before. */
  predicate Fresh(b: Book, call: Call) {
    match call
    case Open(id, _, _, token, _) => id !in b.issued && Unissued(b, token)
    case Present(_, _, _, drawn, _) => Unissued(b, drawn)
    case Close(_) => true
  }

  predicate Unissued(b: Book, token: string) {
    forall id | id in b.issued :: token !in b.issued[id]
  }

  function DecisionOf(env: Env, b: Book, call: Call): Decision
    requires call.Present?
  {
    Decide(env, b.sessions, call.id, call.device, call.token, call.now)
  }

  /** A login opens a session, a refresh presents a token, and logout, eviction or TTL removal closes one. */
  function Step(env: Env, b: Book, call: Call): Book {
    match call
    case Open(id, user, device, token, now) =>
      Book(b.sessions[id := NewSession(env, id, user, device, token, now)], b.issued[id := [token]])
    case Present(id, _, _, drawn, now) =>
      var d := DecisionOf(env, b, call);
      Book(AfterRefresh(env, b.sessions, id, d, drawn, now),
           if d.Rotate? && id in b.issued then b.issued[id := b.issued[id] + [drawn]] else b.issued)
    case Close(id) => b.(sessions := b.sessions - {id})
  }

  ghost predicate Transition(env: Env, b: Book, call: Call, b': Book) {
    Fresh(b, call) && b' == Step(env, b, call)
  }

  ghost predicate IsRun(env: Env, books: seq<Book>, calls: seq<Call>) {
    && |books| == |calls| + 1
    && books[0] == Book(map[], map[])
    && forall i {:trigger Transition(env, books[i], calls[i], books[i + 1])} ::
         0 <= i < |calls| ==> Transition(env, books[i], calls[i], books[i + 1])
  }

  lemma RunStep(env: Env, books: seq<Book>, calls: seq<Call>, i: nat)
    requires IsRun(env, books, calls) && i < |calls|
    ensures Fresh(books[i], calls[i]) && books[i + 1] == Step(env, books[i], calls[i])
  {
    assert Transition(env, books[i], calls[i], books[i + 1]);
  }

  // ---------------------------------------------------------------- the chain invariant

  predicate ChainOk(s: Session, history: seq<string>) {
    && |history| > 0
    && s.generation == |history|
    && s.refreshHash == Sha256(history[|history| - 1])
    && s.prevHash == if |history| > 1 then Sha256(history[|history| - 2]) else NoHash
  }

  predicate TokenAt(issued: map<string, seq<string>>, id: string, i: int, token: string) {
    id in issued && 0 <= i < |issued[id]| && issued[id][i] == token
  }

  /** No token occurs twice in the histories. */
  ghost predicate Distinct(issued: map<string, seq<string>>) {
    forall id, id', i, j, token | TokenAt(issued, id, i, token) && TokenAt(issued, id', j, token) :: id == id' && i == j
  }

  ghost predicate ChainsOk(b: Book) {
    forall id | id in b.sessions :: id in b.issued && ChainOk(b.sessions[id], b.issued[id])
  }

  ghost predicate BookOk(b: Book) {
    ChainsOk(b) && Distinct(b.issued)
  }

  lemma IssueKeepsDistinct(issued: map<string, seq<string>>, id: string, history: seq<string>, token: string)
    requires Distinct(issued) && history == if id in issued then issued[id] else []
    requires forall x | x in issued :: token !in issued[x]
    ensures Distinct(issued[id := history + [token]])
  {
    var issued' := issued[id := history + [token]];
    forall x, i, t | TokenAt(issued', x, i, t)
      ensures (TokenAt(issued, x, i, t) && t != token) || (x == id && i == |history| && t == token)
    {
    }
  }

  lemma StepKeepsBook(env: Env, b: Book, call: Call)
    requires BookOk(b) && Fresh(b, call)
    ensures BookOk(Step(env, b, call))
  {
    match call
    case Open(id, _, _, token, _) =>
      IssueKeepsDistinct(b.issued, id, [], token);
      assert [] + [token] == [token];
    case Present(id, _, _, drawn, _) =>
      if DecisionOf(env, b, call).Rotate? {
        IssueKeepsDistinct(b.issued, id, b.issued[id], drawn);
      }
    case Close(_) =>
  }

  lemma {:induction false} RunKeepsBook(env: Env, books: seq<Book>, calls: seq<Call>, n: nat)
    requires IsRun(env, books, calls) && n < |books|
    ensures BookOk(books[n])
  {
    if n > 0 {
      RunKeepsBook(env, books, calls, n - 1);
      RunStep(env, books, calls, n - 1);
      StepKeepsBook(env, books[n - 1], calls[n - 1]);
    }
  }

  /** In every reachable book, for a refresh on the right device before expiry: the last token issued for the
      session rotates it, the one before deletes it, and every other token is rejected with no change. */
  lemma TokenDecides(env: Env, books: seq<Book>, calls: seq<Call>, n: nat, call: Call)
    requires IsRun(env, books, calls) && n < |books|
    requires call.Present? && call.id in books[n].sessions && books[n].sessions[call.id].deviceId == call.device
    requires env.read(books[n].sessions[call.id].expiresAt).Some?
    requires !ExpiredAt(env, books[n].sessions[call.id].expiresAt, call.now)
    ensures call.id in books[n].issued && |books[n].issued[call.id]| > 0
    ensures var b, h := books[n], books[n].issued[call.id];
            var b', k := Step(env, b, call), |h| - 1;
            && b.sessions[call.id].generation == |h|
            && (call.token == h[k] <==> DecisionOf(env, b, call).Rotate?)
            && (k > 0 && call.token == h[k - 1] <==> DecisionOf(env, b, call).Reuse?)
            && (call.token == h[k] ==> call.id in b'.sessions && b'.sessions[call.id].generation == |h| + 1)
            && (k > 0 && call.token == h[k - 1] ==> call.id !in b'.sessions)
            && (call.token != h[k] && !(k > 0 && call.token == h[k - 1]) ==> b' == b)
  {
    RunKeepsBook(env, books, calls, n);
    var h := books[n].issued[call.id];
    assert ChainOk(books[n].sessions[call.id], h);
    if |h| > 1 && h[|h| - 1] == h[|h| - 2] {
      assert TokenAt(books[n].issued, call.id, |h| - 1, h[|h| - 1]);
      assert TokenAt(books[n].issued, call.id, |h| - 2, h[|h| - 1]);
    }
  }

  // ---------------------------------------------------------------- over whole runs

  ghost predicate Extends(b: Book, b': Book) {
    forall id | id in b.issued :: id in b'.issued && b.issued[id] <= b'.issued[id]
  }

  lemma {:induction false} HistoryGrows(env: Env, books: seq<Book>, calls: seq<Call>, m: nat, n: nat)
    requires IsRun(env, books, calls) && m <= n < |books|
    ensures Extends(books[m], books[n])
  {
    if m < n {
      HistoryGrows(env, books, calls, m, n - 1);
      RunStep(env, books, calls, n - 1);
      assert Extends(books[n - 1], books[n]);
    }
  }

  ghost predicate Accepts(env: Env, b: Book, call: Call) {
    call.Present? && DecisionOf(env, b, call).Rotate?
  }

  /** No refresh token is accepted twice in a serial run, on whatever session it is presented. */
  lemma AcceptedAtMostOnce(env: Env, books: seq<Book>, calls: seq<Call>, i: nat, j: nat)
    requires IsRun(env, books, calls) && i < j < |calls|
    requires Accepts(env, books[i], calls[i]) && Accepts(env, books[j], calls[j])
    ensures calls[i].token != calls[j].token
  {
    RunKeepsBook(env, books, calls, i);
    RunKeepsBook(env, books, calls, j);
    HistoryGrows(env, books, calls, i + 1, j);
    var id, h := calls[i].id, books[i].issued[calls[i].id];
    assert ChainOk(books[i].sessions[id], h);
    RunStep(env, books, calls, i);
    assert books[i + 1].issued[id] == h + [calls[i].drawn];
    var hj := books[j].issued[calls[j].id];
    assert ChainOk(books[j].sessions[calls[j].id], hj);
    assert |books[j].issued[id]| > |h|;
    assert TokenAt(books[j].issued, id, |h| - 1, calls[i].token);
    assert TokenAt(books[j].issued, calls[j].id, |hj| - 1, calls[j].token);
  }

  /** Once a session is gone, by reuse, logout, eviction or removal, no refresh on its id ever succeeds again. */
  lemma {:induction false} ClosedStaysClosed(env: Env, books: seq<Book>, calls: seq<Call>, id: string, m: nat, n: nat)
    requires IsRun(env, books, calls) && m <= n < |books|
    requires id in books[m].issued && id !in books[m].sessions
    ensures id in books[n].issued && id !in books[n].sessions
    ensures n < |calls| && calls[n].Present? && calls[n].id == id ==> DecisionOf(env, books[n], calls[n]) == NoSession
  {
    if m < n {
      ClosedStaysClosed(env, books, calls, id, m, n - 1);
      RunStep(env, books, calls, n - 1);
    }
  }

  /** Presenting the second-last token closes the session for good: every later refresh on its id fails. */
  lemma ReuseEndsSession(env: Env, books: seq<Book>, calls: seq<Call>, i: nat, j: nat)
    requires IsRun(env, books, calls) && i < j < |calls|
    requires calls[i].Present? && DecisionOf(env, books[i], calls[i]).Reuse?
    requires calls[j].Present? && calls[j].id == calls[i].id
    ensures DecisionOf(env, books[j], calls[j]) == NoSession
  {
    RunKeepsBook(env, books, calls, i);
    RunStep(env, books, calls, i);
    ClosedStaysClosed(env, books, calls, calls[i].id, i + 1, j);
  }
}
