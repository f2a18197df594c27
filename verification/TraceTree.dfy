/** The tree of thread traces, its flat list, and what makes the list well formed (src/Trace/ThreadTrace.h, src/Trace/ProgramTrace.cpp). */
module TraceTrees {
  import opened Options
  import opened Traces

  /** A finished `ThreadTrace` with the threads it spawned, in the order of its forks. */
  datatype Trace = Trace(id: nat, spawn: Option<Pid>, events: seq<Event>, children: seq<Trace>)

  function Preorder(t: Trace): seq<Trace> {
    [t] + PreorderAll(t.children)
  }

  function PreorderAll(ts: seq<Trace>): seq<Trace> {
    if ts == [] then [] else Preorder(ts[0]) + PreorderAll(ts[1..])
  }

  lemma {:induction false} PreorderAppend(ts: seq<Trace>, c: Trace)
    ensures PreorderAll(ts + [c]) == PreorderAll(ts) + Preorder(c)
  {
    if ts == [] {
      assert [c][1..] == [];
    } else {
      PreorderAppend(ts[1..], c);
      assert (ts + [c])[1..] == ts[1..] + [c];
    }
  }

  function AsThread(t: Trace): Thread {
    Thread(t.spawn, t.events)
  }

  /** `list` holds the threads `from`, `from + 1`, ... of `all`, and they carry these ids. */
  ghost predicate Lists(list: seq<Trace>, all: seq<Thread>, from: nat) {
    && from + |list| == |all|
    && forall k :: 0 <= k < |list| ==> list[k].id == from + k && AsThread(list[k]) == all[from + k]
  }

  lemma ListsAppend(xs: seq<Trace>, ys: seq<Trace>, all: seq<Thread>, from: nat)
    requires from + |xs| + |ys| == |all| && Lists(xs, all[..from + |xs|], from) && Lists(ys, all, from + |xs|)
    ensures Lists(xs + ys, all, from)
  {
  }

  // ---- Well-formed lists of threads --------------------------------------------------------

  ghost predicate IsEventOf(all: seq<Thread>, e: Pid) {
    e.tid < |all| && e.eid < |all[e.tid].events|
  }

  ghost predicate IsForkOf(all: seq<Thread>, e: Pid) {
    IsEventOf(all, e) && all[e.tid].events[e.eid].Fork?
  }

  /** Thread 0 is the main thread; every other thread was spawned by a fork event of an earlier one. */
  ghost predicate SpawnsOk(all: seq<Thread>) {
    && |all| > 0 && all[0].spawn == None
    && forall t :: 0 < t < |all| ==> all[t].spawn.Some? && all[t].spawn.value.tid < t && IsForkOf(all, all[t].spawn.value)
  }

  ghost predicate Spawned(all: seq<Thread>, e: Pid, c: nat) {
    c < |all| && all[c].spawn == Some(e)
  }

  /** Fork events and threads other than the main one correspond one to one. */
  ghost predicate ForksOk(all: seq<Thread>) {
    && (forall e :: IsForkOf(all, e) ==> exists c: nat :: Spawned(all, e, c))
    && (forall e, c: nat, d: nat :: Spawned(all, e, c) && Spawned(all, e, d) ==> c == d)
  }

  /** The entry functions of thread `t` and the threads it descends from, the main thread excluded. */
  ghost function EntryChain(all: seq<Thread>, t: nat): seq<nat>
    requires SpawnsOk(all) && t < |all|
  {
    if t == 0 then [] else
      var e := all[t].spawn.value;
      [all[e.tid].events[e.eid].entry] + EntryChain(all, e.tid)
  }

  predicate Distinct(s: seq<nat>) {
    forall i, j :: 0 <= i < j < |s| ==> s[i] != s[j]
  }

  /** No entry function occurs twice along a chain of spawns. */
  ghost predicate ChainsOk(all: seq<Thread>)
    requires SpawnsOk(all)
  {
    forall t :: 0 <= t < |all| ==> Distinct(EntryChain(all, t))
  }

  // ---- Calls -------------------------------------------------------------------------------

  /** The calls that are open after `events`, or none if a call is left that was not the last one entered. */
  function Frames(events: seq<Event>): Option<seq<nat>> {
    if events == [] then Some([]) else
      var before := Frames(events[..|events| - 1]);
      if before.None? then None else Shift(before.value, events[|events| - 1])
  }

  function Shift(frames: seq<nat>, e: Event): Option<seq<nat>> {
    match e
    case EnterCall(site) => Some(frames + [site])
    case LeaveCall(site) => if frames != [] && frames[|frames| - 1] == site then Some(frames[..|frames| - 1]) else None
    case _ => Some(frames)
  }

  lemma FramesAppend(events: seq<Event>, e: Event)
    ensures Frames(events + [e]) == if Frames(events).None? then None else Shift(Frames(events).value, e)
  {
    assert (events + [e])[..|events + [e]| - 1] == events;
  }

  lemma {:induction false} FramesPrefix(events: seq<Event>, n: nat)
    requires Frames(events).Some? && n <= |events|
    ensures Frames(events[..n]).Some?
    decreases |events|
  {
    if n < |events| {
      FramesPrefix(events[..|events| - 1], n);
      assert events[..|events| - 1][..n] == events[..n];
    } else {
      assert events[..n] == events;
    }
  }

  // ---- Creation order ----------------------------------------------------------------------

  /** `log` lists the events in the order in which they were created. */
  ghost predicate LogOk(all: seq<Thread>, log: seq<Pid>) {
    && (forall i :: 0 <= i < |log| ==> IsEventOf(all, log[i]))
    && (forall e :: IsEventOf(all, e) ==> e in log)
    && (forall i, j :: 0 <= i < j < |log| ==> log[i] != log[j])
    && (forall i, j :: 0 <= i < |log| && 0 <= j < |log| && log[i].tid == log[j].tid && log[i].eid < log[j].eid ==> i < j)
    && (forall i, j :: 0 <= i < |log| && 0 <= j < |log| && Spawned(all, log[i], log[j].tid) ==> i < j)
  }

  // ---- What the builder keeps --------------------------------------------------------------

  /** Everything a list of threads under construction satisfies. */
  ghost predicate Built(all: seq<Thread>, log: seq<Pid>) {
    SpawnsOk(all) && ForksOk(all) && ChainsOk(all) && LogOk(all, log)
  }

  function Pushed(all: seq<Thread>, t: nat, e: Event): seq<Thread>
    requires t < |all|
  {
    all[t := Thread(all[t].spawn, all[t].events + [e])]
  }

  lemma {:induction false} ChainStable(all: seq<Thread>, all2: seq<Thread>, t: nat)
    requires SpawnsOk(all) && SpawnsOk(all2) && t < |all| <= |all2|
    requires forall u :: 0 <= u < |all| ==> all[u].spawn == all2[u].spawn && all[u].events <= all2[u].events
    ensures EntryChain(all, t) == EntryChain(all2, t)
  {
    if t > 0 {
      ChainStable(all, all2, all[t].spawn.value.tid);
    }
  }

  lemma SpawnedIsFork(all: seq<Thread>)
    requires SpawnsOk(all)
    ensures forall e, c: nat :: Spawned(all, e, c) ==> IsForkOf(all, e)
  {
  }

  lemma PushLog(all: seq<Thread>, log: seq<Pid>, t: nat, e: Event)
    requires t < |all| && SpawnsOk(all) && LogOk(all, log)
    ensures LogOk(Pushed(all, t, e), log + [Pid(t, |all[t].events|)])
  {
    var all2, pid := Pushed(all, t, e), Pid(t, |all[t].events|);
    assert forall d :: IsEventOf(all2, d) <==> IsEventOf(all, d) || d == pid;
    assert forall d, c: nat :: Spawned(all2, d, c) <==> Spawned(all, d, c);
    assert forall c: nat :: !Spawned(all, pid, c) by {
      SpawnedIsFork(all);
    }
    assert forall i :: 0 <= i < |log| ==> IsEventOf(all, log[i]);
    hide Pushed, Spawned, SpawnsOk;
    LogPush(all, all2, log, pid);
  }

  lemma LogPush(all: seq<Thread>, all2: seq<Thread>, log: seq<Pid>, pid: Pid)
    requires LogOk(all, log) && !IsEventOf(all, pid)
    requires forall d :: IsEventOf(all2, d) <==> IsEventOf(all, d) || d == pid
    requires forall d, c: nat :: Spawned(all2, d, c) ==> Spawned(all, d, c)
    requires forall c: nat :: !Spawned(all, pid, c)
    requires forall d: Pid :: IsEventOf(all, d) && d.tid == pid.tid ==> d.eid < pid.eid
    ensures LogOk(all2, log + [pid])
  {
    hide IsEventOf, Spawned;
    var log2 := log + [pid];
    assert forall i :: 0 <= i < |log| ==> log2[i] == log[i];
    assert log2[|log|] == pid;
    forall d | IsEventOf(all2, d)
      ensures d in log2
    {
      if d == pid {
        assert log2[|log|] == d;
      } else {
        var i :| 0 <= i < |log| && log[i] == d;
        assert log2[i] == d;
      }
    }
  }

  /** Appending an event that is no fork keeps the list well formed. */
  lemma PushKeeps(all: seq<Thread>, log: seq<Pid>, t: nat, e: Event)
    requires t < |all| && Built(all, log) && !e.Fork?
    ensures Built(Pushed(all, t, e), log + [Pid(t, |all[t].events|)])
    ensures EntryChain(Pushed(all, t, e), t) == EntryChain(all, t)
  {
    var all2 := Pushed(all, t, e);
    PushLog(all, log, t, e);
    PushForks(all, t, e);
    hide LogOk, ForksOk, Distinct;
    forall u | 0 <= u < |all|
      ensures EntryChain(all2, u) == EntryChain(all, u)
    {
      ChainStable(all, all2, u);
    }
  }

  lemma PushForks(all: seq<Thread>, t: nat, e: Event)
    requires t < |all| && SpawnsOk(all) && ForksOk(all) && !e.Fork?
    ensures SpawnsOk(Pushed(all, t, e)) && ForksOk(Pushed(all, t, e))
  {
    var all2 := Pushed(all, t, e);
    assert forall d :: IsForkOf(all2, d) <==> IsForkOf(all, d);
    assert forall d, c: nat :: Spawned(all2, d, c) <==> Spawned(all, d, c);
  }

  /** The list after a fork event and the start of the thread it spawns. */
  function Forked(all: seq<Thread>, t: nat, e: Event): seq<Thread>
    requires t < |all|
  {
    Pushed(all, t, e) + [Thread(Some(Pid(t, |all[t].events|)), [])]
  }

  lemma ForkForks(all: seq<Thread>, t: nat, e: Event)
    requires t < |all| && SpawnsOk(all) && ForksOk(all) && e.Fork?
    ensures SpawnsOk(Forked(all, t, e)) && ForksOk(Forked(all, t, e))
  {
    var all2, pid := Forked(all, t, e), Pid(t, |all[t].events|);
    assert forall d :: IsForkOf(all2, d) <==> IsForkOf(all, d) || d == pid;
    assert forall d, c: nat :: Spawned(all2, d, c) <==> Spawned(all, d, c) || (d == pid && c == |all|);
    SpawnedIsFork(all);
    assert !IsForkOf(all, pid);
    assert SpawnsOk(all2);
    hide SpawnsOk, Forked, IsForkOf, Spawned, ForksOk;
    ForkedForks(all, all2, pid);
  }

  lemma ForkedForks(all: seq<Thread>, all2: seq<Thread>, pid: Pid)
    requires ForksOk(all) && !IsForkOf(all, pid) && forall d, c: nat :: Spawned(all, d, c) ==> IsForkOf(all, d)
    requires forall d :: IsForkOf(all2, d) <==> IsForkOf(all, d) || d == pid
    requires forall d, c: nat :: Spawned(all2, d, c) <==> Spawned(all, d, c) || (d == pid && c == |all|)
    ensures ForksOk(all2)
  {
    hide IsForkOf, Spawned;
    forall d | IsForkOf(all2, d)
      ensures exists c: nat :: Spawned(all2, d, c)
    {
      if IsForkOf(all, d) {
        var c: nat :| Spawned(all, d, c);
        assert Spawned(all2, d, c);
      } else {
        assert Spawned(all2, d, |all|);
      }
    }
  }

  lemma ForkLog(all: seq<Thread>, log: seq<Pid>, t: nat, e: Event)
    requires t < |all| && SpawnsOk(all) && LogOk(all, log)
    ensures LogOk(Forked(all, t, e), log + [Pid(t, |all[t].events|)])
  {
    PushLog(all, log, t, e);
    var mid, all2 := Pushed(all, t, e), Forked(all, t, e);
    assert forall d :: IsEventOf(all2, d) <==> IsEventOf(mid, d);
    assert forall d, c: nat :: Spawned(all2, d, c) && c < |mid| ==> Spawned(mid, d, c);
  }

  lemma ForkChains(all: seq<Thread>, t: nat, e: Event)
    requires t < |all| && SpawnsOk(all) && SpawnsOk(Forked(all, t, e)) && e.Fork?
    ensures forall u :: 0 <= u < |all| ==> EntryChain(Forked(all, t, e), u) == EntryChain(all, u)
    ensures EntryChain(Forked(all, t, e), |all|) == [e.entry] + EntryChain(all, t)
  {
    var all2 := Forked(all, t, e);
    forall u | 0 <= u < |all|
      ensures EntryChain(all2, u) == EntryChain(all, u)
    {
      ChainStable(all, all2, u);
    }
    assert all2[|all|].spawn.value == Pid(t, |all[t].events|);
    assert all2[t].events[|all[t].events|] == e;
  }

  /** Spawning a thread whose entry is not on the chain keeps the list well formed. */
  lemma ForkKeeps(all: seq<Thread>, log: seq<Pid>, t: nat, e: Event)
    requires t < |all| && Built(all, log) && e.Fork? && e.entry !in EntryChain(all, t)
    ensures Built(Forked(all, t, e), log + [Pid(t, |all[t].events|)])
    ensures EntryChain(Forked(all, t, e), |all|) == [e.entry] + EntryChain(all, t)
    ensures EntryChain(Forked(all, t, e), t) == EntryChain(all, t)
  {
    ForkLog(all, log, t, e);
    ForkForks(all, t, e);
    ForkChains(all, t, e);
    DistinctCons(e.entry, EntryChain(all, t));
    assert |Forked(all, t, e)| == |all| + 1;
    hide LogOk, ForksOk, SpawnsOk, Distinct, Forked, EntryChain;
    ChainsGrow(all, Forked(all, t, e));
  }

  lemma ChainsGrow(all: seq<Thread>, all2: seq<Thread>)
    requires SpawnsOk(all) && SpawnsOk(all2) && ChainsOk(all) && |all2| == |all| + 1
    requires forall u :: 0 <= u < |all| ==> EntryChain(all2, u) == EntryChain(all, u)
    requires Distinct(EntryChain(all2, |all|))
    ensures ChainsOk(all2)
  {
  }

  lemma DistinctCons(x: nat, s: seq<nat>)
    requires Distinct(s) && x !in s
    ensures Distinct([x] + s)
  {
  }

  /** A well-formed program trace: the list is built, and on every thread each call entered is left again. */
  ghost predicate WellFormed(all: seq<Thread>, log: seq<Pid>) {
    Built(all, log) && forall t :: 0 <= t < |all| ==> Frames(all[t].events) == Some([])
  }
}
