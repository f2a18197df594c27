/** Lock sets (src/Analysis/LockSet.cpp): the locks a thread holds before an event, and common locks. */
module LockSets {
  import opened Traces

  /** The locks held after the first `n` events: a lock adds one, an unlock removes one if there is one. */
  function Held(events: seq<Event>, n: nat): multiset<nat>
    requires n <= |events|
  {
    if n == 0 then multiset{} else Replay(Held(events, n - 1), events[n - 1])
  }

  function Replay(locks: multiset<nat>, e: Event): multiset<nat> {
    match e
    case Lock(l) => locks + multiset{l}
    case Unlock(l) => locks - multiset{l}
    case _ => locks
  }

  lemma HeldNext(events: seq<Event>, n: nat)
    requires n < |events|
    ensures Held(events, n + 1) == Replay(Held(events, n), events[n])
    ensures events[n].Barrier? ==> Held(events, n + 1) == Held(events, n)
  {
  }

  function HeldAt(p: Program, e: Pid): multiset<nat>
    requires p.IsEvent(e)
  {
    Held(p.threads[e.tid].events, e.eid)
  }

  /** How many more times `l` is taken than released in `events[k..n]`. */
  function Surplus(events: seq<Event>, l: nat, k: nat, n: nat): int
    requires k <= n <= |events|
  {
    var taken: int, released: int := multiset(events[k..n])[Lock(l)], multiset(events[k..n])[Unlock(l)];
    taken - released
  }

  lemma SurplusNext(events: seq<Event>, l: nat, k: nat, n: nat)
    requires k <= n < |events|
    ensures Surplus(events, l, k, n + 1) == Surplus(events, l, k, n) + if events[n] == Lock(l) then 1 else if events[n] == Unlock(l) then -1 else 0
  {
    assert events[k..n + 1] == events[k..n] + [events[n]];
  }

  lemma SurplusNone(events: seq<Event>, l: nat, n: nat)
    requires n <= |events|
    ensures Surplus(events, l, n, n) == 0
  {
  }

  lemma HeldCount(events: seq<Event>, l: nat, n: nat)
    requires n < |events|
    ensures Held(events, n + 1)[l] ==
      if events[n] == Lock(l) then Held(events, n)[l] + 1
      else if events[n] == Unlock(l) && Held(events, n)[l] > 0 then Held(events, n)[l] - 1
      else Held(events, n)[l]
  {
    HeldNext(events, n);
    hide Held;
  }

  /** `l` is held as often as its surplus is, over the last part of the trace for which that is largest. */
  ghost predicate IsLargestSurplus(events: seq<Event>, l: nat, n: nat, held: nat)
    requires n <= |events|
  {
    && (forall k :: 0 <= k <= n ==> Surplus(events, l, k, n) <= held)
    && (exists k :: 0 <= k <= n && Surplus(events, l, k, n) == held)
  }

  lemma LargestNext(events: seq<Event>, l: nat, n: nat, held: nat, held2: nat)
    requires n < |events| && IsLargestSurplus(events, l, n, held)
    requires held2 == if events[n] == Lock(l) then held + 1 else if events[n] == Unlock(l) && held > 0 then held - 1 else held
    ensures IsLargestSurplus(events, l, n + 1, held2)
  {
    hide Surplus;
    var m := n + 1;
    SurplusNone(events, l, m);
    var k :| 0 <= k <= n && Surplus(events, l, k, n) == held;
    forall j | 0 <= j <= m
      ensures Surplus(events, l, j, m) <= held2
    {
      if j <= n {
        SurplusNext(events, l, j, n);
      }
    }
    SurplusNext(events, l, k, n);
    var best := if events[n] == Unlock(l) && held == 0 then m else k;
    assert Surplus(events, l, best, m) == held2;
  }

  lemma LargestNone(events: seq<Event>, l: nat)
    ensures Held(events, 0)[l] == 0 && IsLargestSurplus(events, l, 0, 0)
  {
    SurplusNone(events, l, 0);
    hide Surplus;
  }

  /** How often a lock is held: its largest surplus; releasing a lock that is not held counts for nothing. */
  lemma {:induction false} HeldIsSurplus(events: seq<Event>, l: nat, n: nat)
    requires n <= |events|
    ensures IsLargestSurplus(events, l, n, Held(events, n)[l])
  {
    hide *;
    if n == 0 {
      LargestNone(events, l);
    } else {
      HeldIsSurplus(events, l, n - 1);
      HeldCount(events, l, n - 1);
      LargestNext(events, l, n - 1, Held(events, n - 1)[l], Held(events, n)[l]);
    }
  }

  /** A `std::multiset` in iteration order. */
  ghost predicate Sorted(s: seq<nat>) {
    forall i, j :: 0 <= i < j < |s| ==> s[i] <= s[j]
  }

  ghost predicate Holds(s: seq<nat>, locks: multiset<nat>) {
    Sorted(s) && multiset(s) == locks
  }

  lemma WithSorted(s: seq<nat>, k: nat, l: nat)
    requires Sorted(s) && k <= |s| && (forall i :: 0 <= i < k ==> s[i] <= l) && (k < |s| ==> l < s[k])
    ensures Sorted(s[..k] + [l] + s[k..])
  {
    var r := s[..k] + [l] + s[k..];
    assert forall i :: 0 <= i < |r| ==> r[i] == if i < k then s[i] else if i == k then l else s[i - 1];
  }

  lemma WithCounts(s: seq<nat>, k: nat, l: nat)
    requires k <= |s|
    ensures multiset(s[..k] + [l] + s[k..]) == multiset(s) + multiset{l}
  {
    assert s == s[..k] + s[k..];
  }

  /** `multiset::insert`. */
  method Insert(s: seq<nat>, l: nat) returns (r: seq<nat>)
    requires Sorted(s)
    ensures Holds(r, multiset(s) + multiset{l})
  {
    hide Sorted;
    var k := 0;
    while k < |s| && s[k] <= l
      invariant k <= |s| && forall i :: 0 <= i < k ==> s[i] <= l
    {
      k := k + 1;
    }
    WithSorted(s, k, l);
    WithCounts(s, k, l);
    r := s[..k] + [l] + s[k..];
  }

  lemma WithoutSorted(s: seq<nat>, k: nat)
    requires Sorted(s) && k < |s|
    ensures Sorted(s[..k] + s[k + 1..])
  {
    var r := s[..k] + s[k + 1..];
    assert forall i :: 0 <= i < |r| ==> r[i] == if i < k then s[i] else s[i + 1];
  }

  lemma WithoutCounts(s: seq<nat>, k: nat)
    requires k < |s|
    ensures multiset(s[..k] + s[k + 1..]) == multiset(s) - multiset{s[k]}
  {
    assert s == s[..k] + [s[k]] + s[k + 1..];
  }

  /** `multiset::erase` of the first equal element, if there is one. */
  method Erase(s: seq<nat>, l: nat) returns (r: seq<nat>)
    requires Sorted(s)
    ensures Holds(r, multiset(s) - multiset{l})
  {
    hide Sorted;
    var k := 0;
    while k < |s| && s[k] != l
      invariant k <= |s| && l !in s[..k]
    {
      k := k + 1;
    }
    if k == |s| {
      assert s == s[..k];
      return s;
    }
    WithoutSorted(s, k);
    WithoutCounts(s, k);
    r := s[..k] + s[k + 1..];
  }

  /** The walk over two sorted sequences that looks for a common element. */
  method Intersects(lhs: seq<nat>, rhs: seq<nat>) returns (r: bool)
    requires Sorted(lhs) && Sorted(rhs)
    ensures r <==> exists l :: l in lhs && l in rhs
  {
    var i, j := 0, 0;
    while i < |lhs| && j < |rhs|
      invariant i <= |lhs| && j <= |rhs|
      invariant forall a, b :: 0 <= a < |lhs| && 0 <= b < |rhs| && (a < i || b < j) ==> lhs[a] != rhs[b]
      decreases |lhs| + |rhs| - i - j
    {
      if lhs[i] < rhs[j] {
        i := i + 1;
      } else if lhs[i] > rhs[j] {
        j := j + 1;
      } else {
        assert lhs[i] in lhs && lhs[i] in rhs;
        return true;
      }
    }
    return false;
  }

  /** One event of the replay. */
  method ReplayOne(locks: seq<nat>, e: Event, ghost held: multiset<nat>) returns (r: seq<nat>)
    requires Holds(locks, held)
    ensures Holds(r, Replay(held, e))
  {
    hide Sorted;
    match e {
      case Lock(l) =>
        r := Insert(locks, l);
      case Unlock(l) =>
        r := Erase(locks, l);
      case _ =>
        r := locks;
    }
  }

  /** The loop over the events before the target. */
  method ReplayLocks(events: seq<Event>, n: nat) returns (locks: seq<nat>)
    requires n <= |events|
    ensures Holds(locks, Held(events, n))
  {
    assert Holds([], Held(events, 0));
    hide Holds, Replay, Held;
    locks := [];
    var i := 0;
    while i < n
      invariant i <= n && Holds(locks, Held(events, i))
    {
      HeldNext(events, i);
      locks := ReplayOne(locks, events[i], Held(events, i));
      i := i + 1;
    }
  }

  class LockSet {
    var cache: map<Pid, seq<nat>>

    /** Whatever the cache holds is what the replay gives. */
    ghost predicate Valid(p: Program)
      reads this
    {
      forall e :: e in cache ==> p.IsEvent(e) && Holds(cache[e], HeldAt(p, e))
    }

    constructor (p: Program)
      ensures Valid(p) && cache == map[]
    {
      cache := map[];
    }

    /** `heldLocks`: replay the thread up to the event, unless the answer is cached. */
    method HeldLocks(p: Program, target: Pid) returns (locks: seq<nat>)
      requires Valid(p) && p.IsEvent(target)
      modifies this
      ensures Valid(p) && Holds(locks, HeldAt(p, target))
    {
      if target in cache {
        return cache[target];
      }
      locks := ReplayLocks(p.threads[target.tid].events, target.eid);
      cache := cache[target := locks];
    }

    /** `sharesLock`. */
    method SharesLock(p: Program, a: Pid, b: Pid) returns (r: bool)
      requires Valid(p) && p.IsEvent(a) && p.IsEvent(b)
      modifies this
      ensures Valid(p)
      ensures r <==> exists l :: l in HeldAt(p, a) && l in HeldAt(p, b)
    {
      var lhs := HeldLocks(p, a);
      var rhs := HeldLocks(p, b);
      r := Intersects(lhs, rhs);
      assert forall l :: l in lhs <==> l in multiset(lhs);
      assert forall l :: l in rhs <==> l in multiset(rhs);
    }
  }
}
