/** The cache of public verification keys: it is reloaded when it is older than its lifetime, and for an
    unknown key id at most once per cooldown. Calls are serial, one call reads the clock once, and a load
    that succeeds returns the whole key set. Times are in nanoseconds. */
module KeyCache {
  import opened Domain

  const CACHE_TTL := 300 * NANOS
  const KID_COOLDOWN := 30 * NANOS

  type KeySet<K> = map<string, K>

  /** What the cache holds, when it was loaded, and when an unknown id last made it reload. */
  datatype Cache<K> = Cache(keys: KeySet<K>, loadedAt: int, lastUnknown: Option<int>)

  datatype Answer<K> = Found(key: K) | UnknownKid | CoolingDown | LoadFailed

  /** One call and its reloads, counted by what caused them. */
  datatype Outcome<K> = Outcome(cache: Cache<K>, answer: Answer<K>, expiryLoads: nat, unknownLoads: nat)

  function LookUnknown<K>(c: Cache<K>, kid: string, now: int, load: Option<KeySet<K>>, expiryLoads: nat): Outcome<K> {
    if c.lastUnknown.Some? && now - c.lastUnknown.value <= KID_COOLDOWN then Outcome(c, CoolingDown, expiryLoads, 0)
    else if load.None? then Outcome(c, LoadFailed, expiryLoads, 0)
    else
      Outcome(Cache(load.value, now, Some(now)),
              if kid in load.value then Found(load.value[kid]) else UnknownKid, expiryLoads, 1)
  }

  /** `PublicKey(kid)` at `now`, when the key source answers `load`. */
  function Lookup<K>(c: Cache<K>, kid: string, now: int, load: Option<KeySet<K>>): Outcome<K> {
    if now - c.loadedAt <= CACHE_TTL then
      if kid in c.keys then Outcome(c, Found(c.keys[kid]), 0, 0)
      else LookUnknown(c, kid, now, load, 0)
    else if load.None? then Outcome(c, LoadFailed, 0, 0)
    else
      var c' := c.(keys := load.value, loadedAt := now);
      if kid in load.value then Outcome(c', Found(load.value[kid]), 1, 0)
      else LookUnknown(c', kid, now, load, 1)
  }

  class KeyStore<K(==)> {
    var publicKeys: KeySet<K>
    var publicKeysLoadedAt: int
    var lastUnknownKidRefresh: Option<int>

    function View(): Cache<K>
      reads this
    {
      Cache(publicKeys, publicKeysLoadedAt, lastUnknownKidRefresh)
    }

    constructor (keys: KeySet<K>, now: int)
      ensures View() == Cache(keys, now, None)
    {
      publicKeys, publicKeysLoadedAt, lastUnknownKidRefresh := keys, now, None;
    }

    method RefreshPublicKeys(load: Option<KeySet<K>>, now: int) returns (ok: bool)
      modifies this
      ensures ok <==> load.Some?
      ensures View() == if ok then old(View()).(keys := load.value, loadedAt := now) else old(View())
    {
      ok := load.Some?;
      if ok {
        publicKeys := load.value;
        publicKeysLoadedAt := now;
      }
    }

    method RefreshPublicKeysWithCooldown(load: Option<KeySet<K>>, now: int) returns (ok: bool)
      modifies this
      ensures ok <==> load.Some?
      ensures View() == if ok then Cache(load.value, now, Some(now)) else old(View())
    {
      ok := load.Some?;
      if ok {
        publicKeys := load.value;
        publicKeysLoadedAt := now;
        lastUnknownKidRefresh := Some(now);
      }
    }

    method PublicKey(kid: string, now: int, load: Option<KeySet<K>>) returns (answer: Answer<K>)
      modifies this
      ensures var o := Lookup(old(View()), kid, now, load); View() == o.cache && answer == o.answer
    {
      var cacheExpired := now - publicKeysLoadedAt > CACHE_TTL;
      if !cacheExpired {
        if kid in publicKeys {
          return Found(publicKeys[kid]);
        }
      }
      if cacheExpired {
        var ok := RefreshPublicKeys(load, now);
        if !ok {
          return LoadFailed;
        }
        if kid in publicKeys {
          return Found(publicKeys[kid]);
        }
      }
      if lastUnknownKidRefresh.Some? && now - lastUnknownKidRefresh.value <= KID_COOLDOWN {
        return CoolingDown;
      }
      var ok := RefreshPublicKeysWithCooldown(load, now);
      if !ok {
        return LoadFailed;
      }
      if kid !in publicKeys {
        return UnknownKid;
      }
      answer := Found(publicKeys[kid]);
    }
  }

  // ---------------------------------------------------------------- serial runs

  /** A call for `kid` at `now`; `up` says whether the key source answers. */
  datatype Call = Call(now: int, kid: string, up: bool)

  /** The key set at each instant. */
  type Source<K> = int -> KeySet<K>

  datatype Run<K> = Run(cache: Cache<K>, expiryLoads: nat, unknownLoads: nat)

  function Load<K>(src: Source<K>, call: Call): Option<KeySet<K>> {
    if call.up then Some(src(call.now)) else None
  }

  /** The cache after construction at `start` and the given calls, with the reloads so far. */
  function Replay<K>(src: Source<K>, start: int, calls: seq<Call>): Run<K> {
    if calls == [] then Run(Cache(src(start), start, None), 0, 0)
    else
      var last := calls[|calls| - 1];
      var r := Replay(src, start, calls[..|calls| - 1]);
      var o := Lookup(r.cache, last.kid, last.now, Load(src, last));
      Run(o.cache, r.expiryLoads + o.expiryLoads, r.unknownLoads + o.unknownLoads)
  }

  ghost predicate InOrder(start: int, calls: seq<Call>) {
    && (forall i :: 0 <= i < |calls| ==> start <= calls[i].now)
    && (forall i, j :: 0 <= i < j < |calls| ==> calls[i].now <= calls[j].now)
  }

  /** The cached set is the source's at the time of loading, reloads for unknown ids are loads, and loads
      of either cause are spaced. */
  ghost predicate RunOk<K(!new)>(src: Source<K>, start: int, r: Run<K>) {
    && start <= r.cache.loadedAt
    && r.cache.keys == src(r.cache.loadedAt)
    && (r.cache.lastUnknown.Some? ==> start <= r.cache.lastUnknown.value <= r.cache.loadedAt)
    && (r.cache.lastUnknown.None? ==> r.unknownLoads == 0)
    && CACHE_TTL * r.expiryLoads <= r.cache.loadedAt - start
    && (r.cache.lastUnknown.Some? ==> KID_COOLDOWN * (r.unknownLoads - 1) <= r.cache.lastUnknown.value - start)
  }

  lemma LookupKeepsRun<K(!new)>(src: Source<K>, start: int, r: Run<K>, call: Call)
    requires RunOk(src, start, r) && r.cache.loadedAt <= call.now
    ensures var o := Lookup(r.cache, call.kid, call.now, Load(src, call));
            && RunOk(src, start, Run(o.cache, r.expiryLoads + o.expiryLoads, r.unknownLoads + o.unknownLoads))
            && o.cache.loadedAt <= call.now
  {
  }

  lemma {:induction false} ReplayOk<K(!new)>(src: Source<K>, start: int, calls: seq<Call>)
    requires InOrder(start, calls)
    ensures RunOk(src, start, Replay(src, start, calls))
    ensures calls != [] ==> Replay(src, start, calls).cache.loadedAt <= calls[|calls| - 1].now
    ensures calls == [] ==> Replay(src, start, calls).cache.loadedAt == start
  {
    if calls != [] {
      var front, last := calls[..|calls| - 1], calls[|calls| - 1];
      ReplayOk(src, start, front);
      assert front != [] ==> front[|front| - 1] == calls[|calls| - 2];
      LookupKeepsRun(src, start, Replay(src, start, front), last);
    }
  }

  /** The answer to one more call, after any serial run. */
  function AnswerAfter<K>(src: Source<K>, start: int, calls: seq<Call>, call: Call): Answer<K> {
    Lookup(Replay(src, start, calls).cache, call.kid, call.now, Load(src, call)).answer
  }

  /** If the key set has not changed for the cache lifetime, every id is answered as by a direct lookup. */
  lemma CacheAgreesWithSource<K(!new)>(src: Source<K>, start: int, calls: seq<Call>, call: Call)
    requires InOrder(start, calls + [call]) && call.up
    requires forall u | call.now - CACHE_TTL <= u <= call.now :: src(u) == src(call.now)
    ensures var a := AnswerAfter(src, start, calls, call);
            if call.kid in src(call.now) then a == Found(src(call.now)[call.kid])
            else a == UnknownKid || a == CoolingDown
  {
    OrderOfPrefix(start, calls, call);
    ReplayOk(src, start, calls);
  }

  lemma OrderOfPrefix(start: int, calls: seq<Call>, call: Call)
    requires InOrder(start, calls + [call])
    ensures InOrder(start, calls) && start <= call.now
    ensures calls != [] ==> calls[|calls| - 1].now <= call.now
  {
    var all := calls + [call];
    assert forall i :: 0 <= i < |calls| ==> all[i] == calls[i];
    assert all[|calls|] == call;
  }

  /** A key id that has been in the source for more than the cooldown is found, whatever was there before. */
  lemma AddedKeyIsFound<K(!new)>(src: Source<K>, start: int, calls: seq<Call>, call: Call, added: int)
    requires InOrder(start, calls + [call]) && call.up && call.now - added > KID_COOLDOWN
    requires forall u | added <= u <= call.now :: call.kid in src(u)
    ensures AnswerAfter(src, start, calls, call).Found?
  {
    OrderOfPrefix(start, calls, call);
    ReplayOk(src, start, calls);
  }

  /** Its value is the source's, unless the id was there with another value during the cache lifetime. */
  lemma AddedKeyIsCurrent<K(!new)>(src: Source<K>, start: int, calls: seq<Call>, call: Call, added: int, key: K)
    requires InOrder(start, calls + [call]) && call.up && call.now - added > KID_COOLDOWN
    requires forall u | added <= u <= call.now :: call.kid in src(u) && src(u)[call.kid] == key
    requires forall u | call.now - CACHE_TTL <= u < added && call.kid in src(u) :: src(u)[call.kid] == key
    ensures AnswerAfter(src, start, calls, call) == Found(key)
  {
    OrderOfPrefix(start, calls, call);
    ReplayOk(src, start, calls);
  }

  /** Call `i` of the run loads the key set successfully. */
  predicate LoadsAt<K(!new)>(src: Source<K>, start: int, calls: seq<Call>, i: nat)
    requires i < |calls|
  {
    var before, after := Replay(src, start, calls[..i]), Replay(src, start, calls[..i + 1]);
    before.expiryLoads + before.unknownLoads < after.expiryLoads + after.unknownLoads
  }

  lemma NextLoad<K(!new)>(src: Source<K>, start: int, calls: seq<Call>, k: nat)
    requires InOrder(start, calls) && k < |calls|
    ensures var before, after := Replay(src, start, calls[..k]).cache, Replay(src, start, calls[..k + 1]).cache;
            && before.loadedAt <= after.loadedAt
            && (LoadsAt(src, start, calls, k) ==> after.loadedAt == calls[k].now)
  {
    assert calls[..k + 1][..k] == calls[..k];
    ReplayOk(src, start, calls[..k]);
  }

  /** The cache is never older than a load that was made. */
  lemma {:induction false} LoadedSince<K(!new)>(src: Source<K>, start: int, calls: seq<Call>, i: nat, n: nat)
    requires InOrder(start, calls) && i < n <= |calls| && LoadsAt(src, start, calls, i)
    ensures calls[i].now <= Replay(src, start, calls[..n]).cache.loadedAt
  {
    NextLoad(src, start, calls, n - 1);
    if i < n - 1 {
      LoadedSince(src, start, calls, i, n - 1);
    }
  }

  /** A load within the run: the one at the start, or that of some call. */
  predicate LoadedAt<K(!new)>(src: Source<K>, start: int, calls: seq<Call>, loaded: int) {
    loaded == start || exists i: nat | i < |calls| :: LoadsAt(src, start, calls, i) && calls[i].now == loaded
  }

  /** The cache answers on its own: if some load is within the cache lifetime and the source has held the key ever
      since, the key is found whether or not the source answers now. */
  lemma FreshKeyNeedsNoSource<K(!new)>(src: Source<K>, start: int, calls: seq<Call>, call: Call, loaded: int, key: K)
    requires InOrder(start, calls + [call]) && LoadedAt(src, start, calls, loaded) && call.now - loaded <= CACHE_TTL
    requires forall u | loaded <= u <= call.now :: call.kid in src(u) && src(u)[call.kid] == key
    ensures AnswerAfter(src, start, calls, call) == Found(key)
  {
    OrderOfPrefix(start, calls, call);
    ReplayOk(src, start, calls);
    if loaded != start {
      var i: nat :| i < |calls| && LoadsAt(src, start, calls, i) && calls[i].now == loaded;
      LoadedSince(src, start, calls, i, |calls|);
      assert calls[..|calls|] == calls;
    }
  }

  /** Call `i` of the run reloads the key set for an unknown id. */
  predicate ReloadsAt<K(!new)>(src: Source<K>, start: int, calls: seq<Call>, i: nat)
    requires i < |calls|
  {
    Replay(src, start, calls[..i]).unknownLoads < Replay(src, start, calls[..i + 1]).unknownLoads
  }

  /** When the keys were last loaded, by the history of the first `n` calls. */
  function LastLoad<K(!new)>(src: Source<K>, start: int, calls: seq<Call>, n: nat): int
    requires n <= |calls|
  {
    if n == 0 then start
    else if LoadsAt(src, start, calls, n - 1) then calls[n - 1].now
    else LastLoad(src, start, calls, n - 1)
  }

  /** When an unknown id last made the keys reload. */
  function LastReload<K(!new)>(src: Source<K>, start: int, calls: seq<Call>, n: nat): Option<int>
    requires n <= |calls|
  {
    if n == 0 then None
    else if ReloadsAt(src, start, calls, n - 1) then Some(calls[n - 1].now)
    else LastReload(src, start, calls, n - 1)
  }

  lemma {:induction false} CacheIsHistory<K(!new)>(src: Source<K>, start: int, calls: seq<Call>, n: nat)
    requires n <= |calls|
    ensures var loaded := LastLoad(src, start, calls, n);
            Replay(src, start, calls[..n]).cache == Cache(src(loaded), loaded, LastReload(src, start, calls, n))
  {
    if n > 0 {
      CacheIsHistory(src, start, calls, n - 1);
      assert calls[..n][..n - 1] == calls[..n - 1];
    }
  }

  /** Every answer, by the history: the key as last loaded, if that was no more than 300 s ago; the key as of now, if it
      was longer ago; and for an id that is in neither, at most one reload in more than 30 s. The source has to answer
      only where the cache is too old or the id is unknown. */
  lemma AnswerByHistory<K(!new)>(src: Source<K>, start: int, calls: seq<Call>, call: Call)
    ensures var loaded, reloaded := LastLoad(src, start, calls, |calls|), LastReload(src, start, calls, |calls|);
            var a, recent := AnswerAfter(src, start, calls, call), call.now - loaded <= 300 * NANOS;
            var cooling := reloaded.Some? && call.now - reloaded.value <= 30 * NANOS;
            && (recent && call.kid in src(loaded) ==> a == Found(src(loaded)[call.kid]))
            && (recent && call.kid !in src(loaded) && cooling ==> a == CoolingDown)
            && (!recent && call.up && call.kid !in src(call.now) && cooling ==> a == CoolingDown)
            && (!(recent && call.kid in src(loaded)) && call.up && !cooling ==>
                  a == if call.kid in src(call.now) then Found(src(call.now)[call.kid]) else UnknownKid)
            && (!recent && call.up && call.kid in src(call.now) ==> a == Found(src(call.now)[call.kid]))
            && (a == LoadFailed <==> !call.up && (!recent || (call.kid !in src(loaded) && !cooling)))
  {
    CacheIsHistory(src, start, calls, |calls|);
    assert calls[..|calls|] == calls;
  }

  /** A call fails to load only if the source does not answer, and then it leaves the cache as it was. */
  lemma FailureChangesNothing<K(!new)>(src: Source<K>, start: int, calls: seq<Call>, call: Call)
    requires AnswerAfter(src, start, calls, call).LoadFailed?
    ensures !call.up
    ensures Replay(src, start, calls + [call]) == Replay(src, start, calls)
  {
    assert (calls + [call])[..|calls|] == calls;
  }

  /** A key that has been out of the source for more than the cache lifetime is refused. */
  lemma RemovedKeyIsRefused<K(!new)>(src: Source<K>, start: int, calls: seq<Call>, call: Call, removed: int)
    requires InOrder(start, calls + [call]) && call.now - removed > CACHE_TTL
    requires forall u | removed <= u <= call.now :: call.kid !in src(u)
    ensures !AnswerAfter(src, start, calls, call).Found?
  {
    OrderOfPrefix(start, calls, call);
    ReplayOk(src, start, calls);
  }

  /** Over a run of length `length`, successful reloads number at most one per cache lifetime for expiry, and
      one per cooldown plus one for unknown ids. */
  lemma LoadBound<K(!new)>(src: Source<K>, start: int, calls: seq<Call>, length: nat)
    requires InOrder(start, calls) && forall i :: 0 <= i < |calls| ==> calls[i].now <= start + length
    ensures var r := Replay(src, start, calls);
            r.expiryLoads <= length / CACHE_TTL && r.unknownLoads <= length / KID_COOLDOWN + 1
  {
    ReplayOk(src, start, calls);
  }
}
