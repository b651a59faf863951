/** The fixed-window limiter and the lockout keys, both kept in Redis as expiring keys. Times are in
    nanoseconds, and one call reads the clock once. */
module RateLimit {
  import opened Domain

  /** A live counter and the instant at which its key expires. */
  datatype Counter = Counter(count: nat, expireAt: int)

  /** The script: INCR, and EXPIRE when the increment made the key. An expired key counts as missing. */
  function Incr(c: Option<Counter>, now: int, window: nat): Counter {
    if c.Some? && now < c.value.expireAt then c.value.(count := c.value.count + 1) else Counter(1, now + window)
  }

  class RateLimiter {
    var counters: map<string, Counter>
    var locks: map<string, int>

    constructor ()
      ensures counters == map[] && locks == map[]
    {
      counters, locks := map[], map[];
    }

    /** Fails closed: without an answer the call is not allowed. */
    method CheckAndIncrement(key: string, limit: nat, window: nat, now: int, reply: Reply)
      returns (allowed: bool, failed: bool)
      modifies this
      ensures var c := Incr(Get(old(counters), key), now, window);
              && counters == (if reply.Refused? then old(counters) else old(counters)[key := c])
              && (allowed <==> reply.Delivered? && c.count <= limit)
      ensures locks == old(locks)
      ensures failed <==> !reply.Delivered?
    {
      if reply == Refused {
        return false, true;
      }
      var count := 1;
      if key in counters && now < counters[key].expireAt {
        count := counters[key].count + 1;
        counters := counters[key := counters[key].(count := count)];
      } else {
        counters := counters[key := Counter(count, now + window)];
      }
      if reply == Lost {
        return false, true;
      }
      allowed, failed := count <= limit, false;
    }

    /** Fails closed: without an answer the key counts as locked. */
    method CheckLockout(key: string, now: int, reply: Reply) returns (locked: bool, failed: bool)
      ensures locked <==> !reply.Delivered? || Lives(Get(locks, key), now)
      ensures failed <==> !reply.Delivered?
    {
      if reply != Delivered {
        return true, true;
      }
      locked, failed := key in locks && now < locks[key], false;
    }

    method SetLockout(key: string, ttl: nat, now: int, reply: Reply) returns (failed: bool)
      modifies this
      ensures locks == if reply.Refused? then old(locks) else old(locks)[key := now + ttl]
      ensures counters == old(counters)
      ensures failed <==> !reply.Delivered?
    {
      if reply != Refused {
        locks := locks[key := now + ttl];
      }
      failed := reply != Delivered;
    }
  }

  // ---------------------------------------------------------------- traces of one key

  /** Call instants of one key, in order. */
  ghost predicate IsTrace(times: seq<int>) {
    forall i, j :: 0 <= i <= j < |times| ==> times[i] <= times[j]
  }

  /** The counter after the calls at `times`. */
  function After(times: seq<int>, window: nat): (c: Option<Counter>)
    ensures times != [] ==> c.Some?
  {
    if times == [] then None
    else Some(Incr(After(times[..|times| - 1], window), times[|times| - 1], window))
  }

  /** Whether call number `i` of the trace is allowed. */
  predicate Allowed(times: seq<int>, i: nat, limit: nat, window: nat)
    requires i < |times|
  {
    After(times[..i + 1], window).value.count <= limit
  }

  /** The window of a call, said without counters: a call opens a window when the window of the call before
      it has run out, and joins that window otherwise. */
  function WindowStart(times: seq<int>, i: nat, window: nat): (s: nat)
    requires i < |times|
    ensures s <= i
  {
    if i == 0 then 0
    else
      var s := WindowStart(times, i - 1, window);
      if times[i] >= times[s] + window then i else s
  }

  lemma {:induction false} CounterInWindow(times: seq<int>, i: nat, window: nat)
    requires i < |times|
    ensures var s := WindowStart(times, i, window);
            After(times[..i + 1], window) == Some(Counter(i - s + 1, times[s] + window))
  {
    assert times[..i + 1][..i] == times[..i];
    if i > 0 {
      CounterInWindow(times, i - 1, window);
    }
  }

  /** Inside one window exactly the first `limit` calls pass. */
  lemma FirstCallsPass(times: seq<int>, i: nat, limit: nat, window: nat)
    requires i < |times|
    ensures Allowed(times, i, limit, window) <==> i - WindowStart(times, i, window) < limit
  {
    CounterInWindow(times, i, window);
  }

  // ---------------------------------------------------------------- the bound

  /** The allowed calls among the first `n` that fall at or after `from`. */
  function AllowedFrom(times: seq<int>, n: nat, limit: nat, window: nat, from: int): nat
    requires n <= |times|
  {
    if n == 0 then 0
    else AllowedFrom(times, n - 1, limit, window, from)
         + OneIf(from <= times[n - 1] && Allowed(times, n - 1, limit, window))
  }

  lemma OneMore(limit: nat, q: nat)
    ensures limit + limit * q == limit * (q + 1)
  {
  }

  lemma ScaleMonotone(k: nat, a: nat, b: nat)
    requires a <= b
    ensures k * a <= k * b
  {
  }

  lemma {:induction false} NothingBefore(times: seq<int>, n: nat, limit: nat, window: nat, from: int)
    requires n <= |times| && forall j :: 0 <= j < n ==> times[j] < from
    ensures AllowedFrom(times, n, limit, window, from) == 0
  {
    if n > 0 {
      NothingBefore(times, n - 1, limit, window, from);
    }
  }

  lemma {:induction false} CallIsInWindow(times: seq<int>, i: nat, window: nat)
    requires i < |times| && window > 0
    ensures times[i] < times[WindowStart(times, i, window)] + window
  {
    if i > 0 {
      CallIsInWindow(times, i - 1, window);
    }
  }

  /** The windows that the first `n` calls opened after `from`. */
  function OpenedAfter(times: seq<int>, n: nat, window: nat, from: int): nat
    requires n <= |times|
  {
    if n == 0 then 0
    else OpenedAfter(times, n - 1, window, from)
         + OneIf(WindowStart(times, n - 1, window) == n - 1 && times[n - 1] > from)
  }

  /** Windows opened after `from` are a window length apart, and the current one is the last of them. */
  lemma {:induction false} WindowsAreSpaced(times: seq<int>, n: nat, window: nat, from: int)
    requires IsTrace(times) && 0 < n <= |times| && window > 0
    ensures var start, q := times[WindowStart(times, n - 1, window)], OpenedAfter(times, n, window, from);
            (start <= from <==> q == 0) && (q > 0 ==> window * (q - 1) <= start - from)
  {
    if n > 1 {
      WindowsAreSpaced(times, n - 1, window, from);
      var q := OpenedAfter(times, n - 1, window, from);
      if q > 0 {
        OneMore(window, q - 1);
      }
    }
  }

  /** `q` times `limit`, by addition. */
  function Times(q: nat, limit: nat): nat {
    if q == 0 then 0 else Times(q - 1, limit) + limit
  }

  lemma {:induction false} TimesIsProduct(q: nat, limit: nat)
    ensures Times(q, limit) == limit * q
  {
    if q > 0 {
      TimesIsProduct(q - 1, limit);
      OneMore(limit, q - 1);
    }
  }

  /** A call uses up one of the calls of its window, if it counts at all. */
  lemma OneCall(spent: nat, extra: nat, used: nat, limit: nat, counts: bool)
    requires spent <= Min(used, limit) + extra && (counts ==> used < limit)
    ensures spent + OneIf(counts) <= Min(used + 1, limit) + extra
  {
  }

  /** After `n` calls: the current window has spent at most its own count, and each window opened after `from`
      accounts for one full limit spent before it. */
  lemma {:induction false} SpentSoFar(times: seq<int>, n: nat, limit: nat, window: nat, from: int)
    requires IsTrace(times) && 0 < n <= |times| && window > 0
    ensures AllowedFrom(times, n, limit, window, from)
            <= Min(n - WindowStart(times, n - 1, window), limit) + Times(OpenedAfter(times, n, window, from), limit)
  {
    var i := n - 1;
    FirstCallsPass(times, i, limit, window);
    var counts := from <= times[i] && Allowed(times, i, limit, window);
    var q := OpenedAfter(times, i, window, from);
    if i == 0 {
      OneCall(0, Times(OpenedAfter(times, 1, window, from), limit), 0, limit, counts);
    } else {
      SpentSoFar(times, i, limit, window, from);
      var start, spent := WindowStart(times, i - 1, window), AllowedFrom(times, i, limit, window, from);
      if times[i] < times[start] + window {
        OneCall(spent, Times(q, limit), i - start, limit, counts);
      } else if times[i] > from {
        OneCall(spent, Times(q + 1, limit), 0, limit, counts);
      } else {
        CallIsInWindow(times, i - 1, window);
        NothingBefore(times, i, limit, window, from);
        OneCall(0, Times(q, limit), 0, limit, counts);
      }
    }
  }

  /** Windows spaced by `window` inside `length` are at most `length / window + 1`. */
  lemma WindowCount(window: nat, q: nat, length: nat)
    requires window > 0 && (q > 0 ==> window * (q - 1) <= length)
    ensures q + 1 <= length / window + 2
  {
    OneMore(window, length / window);
    if q > length / window + 1 {
      ScaleMonotone(window, length / window + 1, q - 1);
    }
  }

  /** Each window opened after `from`, and one more, accounts for at most a full limit. */
  lemma LimitPerWindow(times: seq<int>, n: nat, limit: nat, window: nat, from: int)
    requires IsTrace(times) && n <= |times| && window > 0
    ensures AllowedFrom(times, n, limit, window, from) <= limit * (OpenedAfter(times, n, window, from) + 1)
  {
    if n > 0 {
      SpentSoFar(times, n, limit, window, from);
    }
    TimesIsProduct(OpenedAfter(times, n, window, from) + 1, limit);
  }

  lemma OpenedInInterval(times: seq<int>, n: nat, window: nat, from: int, length: nat)
    requires IsTrace(times) && n <= |times| && window > 0
    requires forall i :: 0 <= i < n ==> times[i] <= from + length
    ensures OpenedAfter(times, n, window, from) + 1 <= length / window + 2
  {
    if n > 0 {
      WindowsAreSpaced(times, n, window, from);
    }
    WindowCount(window, OpenedAfter(times, n, window, from), length);
  }

  /** In any interval of length `length`, at most `limit * (length / window + 2)` calls of one key pass. */
  lemma IntervalBound(times: seq<int>, n: nat, limit: nat, window: nat, from: int, length: nat)
    requires IsTrace(times) && n <= |times| && window > 0
    requires forall i :: 0 <= i < n ==> times[i] <= from + length
    ensures AllowedFrom(times, n, limit, window, from) <= limit * (length / window + 2)
  {
    LimitPerWindow(times, n, limit, window, from);
    OpenedInInterval(times, n, window, from, length);
    ScaleMonotone(limit, OpenedAfter(times, n, window, from) + 1, length / window + 2);
  }
}
