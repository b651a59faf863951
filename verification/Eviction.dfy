/** Which sessions a login removes: every one on the same device, and the oldest of the others
    while the user is at the limit. */
module Eviction {
  import opened Domain
  import opened Rfc3339
  import opened Tables

  /** The sessions of `listed` that are bound to `device`, in order. */
  function OnDevice(listed: seq<Session>, device: string): (r: seq<Session>)
    ensures forall s :: s in r <==> s in listed && s.deviceId == device
  {
    if listed == [] then []
    else
      var last := listed[|listed| - 1];
      var rest := OnDevice(listed[..|listed| - 1], device);
      assert listed == listed[..|listed| - 1] + [last];
      if last.deviceId == device then rest + [last] else rest
  }

  lemma {:induction false} OnDeviceSplits(listed: seq<Session>, n: nat, device: string)
    requires n <= |listed|
    ensures OnDevice(listed, device) == OnDevice(listed[..n], device) + OnDevice(listed[n..], device)
    decreases |listed|
  {
    if n < |listed| {
      var front, back := listed[..|listed| - 1], listed[n..];
      OnDeviceSplits(front, n, device);
      assert front[..n] == listed[..n] && front[n..] == back[..|back| - 1] && back[|back| - 1] == listed[|listed| - 1];
    } else {
      assert listed[..n] == listed && listed[n..] == [];
    }
  }

  /** The sessions of `listed` that are bound to another device, in order. */
  function OffDevice(listed: seq<Session>, device: string): (r: seq<Session>)
    ensures forall s :: s in r <==> s in listed && s.deviceId != device
  {
    if listed == [] then []
    else
      var last := listed[|listed| - 1];
      var rest := OffDevice(listed[..|listed| - 1], device);
      assert listed == listed[..|listed| - 1] + [last];
      if last.deviceId != device then rest + [last] else rest
  }

  /** The sessions on other devices split into those to evict and those to keep: nothing is lost or
      invented, at most one below the limit stay, and no evicted one was created after a kept one. */
  ghost predicate IsSplit(others: seq<Session>, evicted: seq<Session>, kept: seq<Session>) {
    && multiset(evicted) + multiset(kept) == multiset(others)
    && |kept| == Min(|others|, MAX_SESSIONS_PER_USER - 1)
    && forall e, k | e in evicted && k in kept :: !TextLess(k.createdAt, e.createdAt)
  }

  /** Every listed session is removed or kept, and a kept one is on another device. */
  lemma SplitCovers(listed: seq<Session>, device: string, evicted: seq<Session>, kept: seq<Session>)
    requires IsSplit(OffDevice(listed, device), evicted, kept)
    ensures forall s | s in listed :: s in OnDevice(listed, device) || s in evicted || s in kept
    ensures forall s | s in kept :: s in listed && s.deviceId != device
    ensures forall s | s in evicted :: s in listed && s.deviceId != device
    ensures |kept| <= MAX_SESSIONS_PER_USER - 1
  {
    var others := OffDevice(listed, device);
    forall s
      ensures s in others <==> s in evicted || s in kept
    {
      assert s in others <==> s in multiset(others);
      assert multiset(others)[s] == multiset(evicted)[s] + multiset(kept)[s];
    }
  }

  // ---------------------------------------------------------------- identifiers

  function Ids(sessions: seq<Session>): (r: seq<string>)
    ensures |r| == |sessions| && forall i :: 0 <= i < |r| ==> r[i] == sessions[i].id
  {
    seq(|sessions|, i requires 0 <= i < |sessions| => sessions[i].id)
  }

  function IdSet(sessions: seq<Session>): set<string> {
    set s | s in sessions :: s.id
  }

  lemma IdSetConcat(xs: seq<Session>, ys: seq<Session>)
    ensures IdSet(xs + ys) == IdSet(xs) + IdSet(ys)
  {
  }

  lemma {:induction false} IdSetSize(sessions: seq<Session>)
    ensures |IdSet(sessions)| <= |sessions|
  {
    if sessions != [] {
      var front, last := sessions[..|sessions| - 1], sessions[|sessions| - 1];
      IdSetSize(front);
      assert sessions == front + [last];
      assert IdSet(sessions) == IdSet(front) + {last.id};
    }
  }

  /** With distinct ids, the set of ids is as large as the list. */
  lemma {:induction false} IdSetExact(sessions: seq<Session>)
    requires DistinctIds(sessions)
    ensures |IdSet(sessions)| == |sessions|
  {
    if sessions != [] {
      var front, last := sessions[..|sessions| - 1], sessions[|sessions| - 1];
      IdSetExact(front);
      assert sessions == front + [last];
      assert IdSet(sessions) == IdSet(front) + {last.id};
      assert last.id !in IdSet(front);
    }
  }

  // ---------------------------------------------------------------- sorting

  ghost predicate SortedByCreation(s: seq<Session>) {
    forall i, j :: 0 <= i < j < |s| ==> !TextLess(s[j].createdAt, s[i].createdAt)
  }

  /** Puts `x` into a sorted sequence, after the elements that are not later. */
  function Insert(s: seq<Session>, x: Session): (r: seq<Session>)
    requires SortedByCreation(s)
    ensures multiset(r) == multiset(s) + multiset{x}
    ensures SortedByCreation(r)
  {
    if s == [] then [x]
    else
      var last := s[|s| - 1];
      assert s == s[..|s| - 1] + [last];
      if TextLess(x.createdAt, last.createdAt) then
        var front := Insert(s[..|s| - 1], x);
        InsertBelowLast(s[..|s| - 1], x, last, front);
        front + [last]
      else
        InsertLast(s, x);
        s + [x]
  }

  lemma InsertLast(s: seq<Session>, x: Session)
    requires SortedByCreation(s) && s != []
    requires !TextLess(x.createdAt, s[|s| - 1].createdAt)
    ensures SortedByCreation(s + [x])
  {
    forall i | 0 <= i < |s|
      ensures !TextLess(x.createdAt, s[i].createdAt)
    {
      if i < |s| - 1 {
        TextLessTransitive(x.createdAt, s[|s| - 1].createdAt, s[i].createdAt);
      }
    }
  }

  lemma InsertBelowLast(front: seq<Session>, x: Session, last: Session, r: seq<Session>)
    requires SortedByCreation(front + [last]) && SortedByCreation(r)
    requires multiset(r) == multiset(front) + multiset{x}
    requires TextLess(x.createdAt, last.createdAt)
    ensures SortedByCreation(r + [last])
  {
    forall i | 0 <= i < |r|
      ensures !TextLess(last.createdAt, r[i].createdAt)
    {
      assert r[i] in multiset(r);
      if r[i] in front {
        var j :| 0 <= j < |front| && front[j] == r[i];
        assert (front + [last])[j] == r[i] && (front + [last])[|front|] == last;
      } else {
        TextLessAsymmetric(x.createdAt, last.createdAt);
      }
    }
  }

  /** What a sort by creation time promises: the same sessions, oldest first. */
  function Sorted(xs: seq<Session>): (ys: seq<Session>)
    ensures multiset(ys) == multiset(xs)
    ensures SortedByCreation(ys)
  {
    if xs == [] then []
    else
      assert xs == xs[..|xs| - 1] + [xs[|xs| - 1]];
      Insert(Sorted(xs[..|xs| - 1]), xs[|xs| - 1])
  }

  method SortByCreation(xs: seq<Session>) returns (ys: seq<Session>)
    ensures ys == Sorted(xs)
    ensures multiset(ys) == multiset(xs) && SortedByCreation(ys)
  {
    ys := [];
    for i := 0 to |xs|
      invariant ys == Sorted(xs[..i])
    {
      assert xs[..i + 1][..i] == xs[..i];
      ys := Insert(ys, xs[i]);
    }
    assert xs[..|xs|] == xs;
  }

  /** Cutting a sorted list after its excess gives a split, for a list of any length. */
  lemma CutIsSplit(others: seq<Session>, sorted: seq<Session>, n: nat)
    requires multiset(sorted) == multiset(others) && SortedByCreation(sorted)
    requires n == |others| - Min(|others|, MAX_SESSIONS_PER_USER - 1)
    ensures n <= |sorted| && IsSplit(others, sorted[..n], sorted[n..])
  {
    assert |sorted| == |multiset(sorted)| == |multiset(others)| == |others|;
    assert sorted == sorted[..n] + sorted[n..];
  }

  /** Every list can be split. */
  lemma SplitExists(others: seq<Session>) returns (evicted: seq<Session>, kept: seq<Session>)
    ensures IsSplit(others, evicted, kept)
  {
    var sorted := Sorted(others);
    var n := |others| - Min(|others|, MAX_SESSIONS_PER_USER - 1);
    CutIsSplit(others, sorted, n);
    evicted, kept := sorted[..n], sorted[n..];
  }
}
