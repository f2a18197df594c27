/**
 * Runs of the thread traces: a fork enables the child, a join waits for the thread it was matched
 * with, a lock excludes other threads, and the threads of a team pass a barrier together.
 * Both filters of src/RaceDetect.cpp:73-75 are justified against every such run.
 */
module Interleavings {
  import opened Options
  import opened Traces
  import opened Walks
  import opened HappensBefore
  import opened HappensBeforeGraphs
  import opened LockSets

  /** How far each thread is, which threads run, and the locks each thread holds. */
  datatype State = State(pc: seq<nat>, started: set<nat>, held: seq<multiset<nat>>)

  ghost predicate Shaped(p: Program, s: State) {
    |s.pc| == |s.held| == |p.threads| && forall t :: 0 <= t < |p.threads| ==> s.pc[t] <= |p.threads[t].events|
  }

  ghost function Start(p: Program): State {
    State(seq(|p.threads|, _ => 0), (set t | 0 <= t < |p.threads| && p.threads[t].spawn.None?), seq(|p.threads|, _ => multiset{}))
  }

  ghost predicate Executed(s: State, e: Pid) {
    e.tid < |s.pc| && e.eid < s.pc[e.tid]
  }

  /** Thread `e.tid` runs and `e` is its next event. */
  ghost predicate IsNextEvent(p: Program, s: State, e: Pid) {
    p.IsEvent(e) && e.tid < |s.pc| && e.tid in s.started && s.pc[e.tid] == e.eid
  }

  /** The team of every thread. A barrier is for the threads of one team. */
  type Teams = nat -> nat

  /** Thread `u` takes part in barrier `b` together with thread `t`. */
  ghost predicate InTeam(p: Program, T: Teams, b: nat, t: nat, u: nat) {
    u < |p.threads| && T(u) == T(t) && Barrier(b) in p.threads[u].events
  }

  ghost predicate AtBarrier(p: Program, s: State, b: nat, u: nat) {
    IsNextEvent(p, s, Pid(u, if u < |s.pc| then s.pc[u] else 0)) && p.At(Pid(u, s.pc[u])) == Barrier(b)
  }

  ghost predicate Enabled(p: Program, T: Teams, s: State, e: Pid)
    requires Shaped(p, s)
  {
    IsNextEvent(p, s, e) &&
    match p.At(e)
    case Join => e in p.joined && p.joined[e] < |p.threads| ==> s.pc[p.joined[e]] == |p.threads[p.joined[e]].events|
    case Lock(l) => forall u :: 0 <= u < |p.threads| && u != e.tid ==> l !in s.held[u]
    case Barrier(b) => forall u: nat :: InTeam(p, T, b, e.tid, u) ==> AtBarrier(p, s, b, u)
    case _ => true
  }

  /** The threads that move when `e` is executed. */
  ghost predicate Moves(p: Program, T: Teams, e: Pid, t: nat)
    requires p.IsEvent(e)
  {
    t == e.tid || (p.At(e).Barrier? && InTeam(p, T, p.At(e).inst, e.tid, t))
  }

  /** `s2` follows from `s` by executing `e`. */
  ghost predicate Step(p: Program, T: Teams, s: State, e: Pid, s2: State) {
    && Shaped(p, s) && Shaped(p, s2) && Enabled(p, T, s, e)
    && (forall t :: 0 <= t < |p.threads| ==> s2.pc[t] == if Moves(p, T, e, t) then s.pc[t] + 1 else s.pc[t])
    && s2.started == s.started + (set c | 0 <= c < |p.threads| && p.threads[c].spawn == Some(e))
    && (forall t :: 0 <= t < |p.threads| ==> if t == e.tid then LocksFollow(s.held[t], p.At(e), s2.held[t]) else s2.held[t] == s.held[t])
  }

  /** A lock is held once more after it is taken, once less after it is released, if it was held, and as often as before otherwise. */
  ghost predicate LocksFollow(held: multiset<nat>, ev: Event, held2: multiset<nat>) {
    forall l: nat :: held2[l] ==
      if ev == Lock(l) then held[l] + 1
      else if ev == Unlock(l) && held[l] > 0 then held[l] - 1
      else held[l]
  }

  /** The replay of one event is what a run does with the locks. */
  lemma ReplayFollows(held: multiset<nat>, ev: Event, held2: multiset<nat>)
    ensures LocksFollow(held, ev, held2) <==> held2 == Replay(held, ev)
  {
    assert LocksFollow(held, ev, Replay(held, ev));
    if LocksFollow(held, ev, held2) {
      assert forall l: nat :: held2[l] == Replay(held, ev)[l];
    }
  }

  /** `run` starts in the initial state and takes one step after another. */
  ghost predicate IsRun(p: Program, T: Teams, run: seq<State>) {
    && run != [] && run[0] == Start(p)
    && forall i :: 0 < i < |run| ==> Follows(p, T, run[i - 1], run[i])
  }

  ghost predicate Follows(p: Program, T: Teams, s: State, s2: State) {
    exists e :: Step(p, T, s, e, s2)
  }

  /** Two events of one barrier that no step executes together: of one thread, or of different teams. */
  ghost predicate Apart(p: Program, T: Teams, e: Pid, f: Pid) {
    && p.IsEvent(e) && p.IsEvent(f) && e != f && p.At(e).Barrier? && p.At(e) == p.At(f)
    && (e.tid == f.tid || T(e.tid) != T(f.tid))
  }

  /** No barrier event executed so far has another one apart from it, executed or not. */
  ghost predicate NoneApart(p: Program, T: Teams, s: State) {
    forall e, f :: Apart(p, T, e, f) ==> !Executed(s, e)
  }

  /** Every barrier is met by one team only, and by each of its threads at most once. */
  ghost predicate BarriersTogether(p: Program, T: Teams) {
    forall e, f :: !Apart(p, T, e, f)
  }

  /** Threads only run once their fork has been executed. */
  ghost predicate StartedOk(p: Program, s: State) {
    && (forall t :: 0 <= t < |s.pc| && s.pc[t] > 0 ==> t in s.started)
    && (forall t :: t in s.started ==> t < |p.threads| && (p.threads[t].spawn.Some? ==> Executed(s, p.threads[t].spawn.value)))
  }

  /** Whatever has been executed, everything that happens before it has been executed too. */
  ghost predicate OrderKept(p: Program, S: set<Arc>, s: State) {
    forall f :: f in EventGraph(p, S) && Executed(s, f.dst) ==> Executed(s, f.src)
  }

  /** The locks held are those of the replay, and no two threads hold a common lock. */
  ghost predicate LocksKept(p: Program, s: State)
    requires Shaped(p, s)
  {
    && (forall t :: 0 <= t < |p.threads| ==> s.held[t] == Held(p.threads[t].events, s.pc[t]))
    && (forall t, u, l :: 0 <= t < u < |p.threads| && l in s.held[t] ==> l !in s.held[u])
  }

  ghost predicate Inv(p: Program, S: set<Arc>, s: State) {
    Shaped(p, s) && StartedOk(p, s) && OrderKept(p, S, s) && LocksKept(p, s)
  }

  lemma StartInv(p: Program, S: set<Arc>)
    ensures Inv(p, S, Start(p))
  {
  }

  lemma StepStarted(p: Program, T: Teams, s: State, e: Pid, s2: State)
    requires StartedOk(p, s) && Step(p, T, s, e, s2)
    ensures StartedOk(p, s2)
  {
    forall t | 0 <= t < |s2.pc| && s2.pc[t] > 0
      ensures t in s2.started
    {
      if Moves(p, T, e, t) && t != e.tid {
        assert AtBarrier(p, s, p.At(e).inst, t);
      }
    }
  }

  lemma StepLocks(p: Program, T: Teams, s: State, e: Pid, s2: State)
    requires Shaped(p, s) && LocksKept(p, s) && Step(p, T, s, e, s2)
    ensures LocksKept(p, s2)
  {
    forall t | 0 <= t < |p.threads|
      ensures s2.held[t] == Held(p.threads[t].events, s2.pc[t])
    {
      HeldMoves(p, T, s, e, s2, t);
    }
    forall t, u, l | 0 <= t < u < |p.threads| && l in s2.held[t]
      ensures l !in s2.held[u]
    {
      Exclusive(p, T, s, e, s2, t, u, l);
    }
  }

  lemma HeldMoves(p: Program, T: Teams, s: State, e: Pid, s2: State, t: nat)
    requires Shaped(p, s) && LocksKept(p, s) && Step(p, T, s, e, s2) && t < |p.threads|
    ensures s2.held[t] == Held(p.threads[t].events, s2.pc[t])
  {
    hide *;
    StepOf(p, T, s, e, s2, t);
    SelfMoves(p, T, e);
    if Moves(p, T, e, t) {
      MovesNext(p, T, s, e, t);
      HeldNext(p.threads[t].events, s.pc[t]);
    }
  }

  /** What a step does with one thread. */
  lemma StepOf(p: Program, T: Teams, s: State, e: Pid, s2: State, t: nat)
    requires Shaped(p, s) && LocksKept(p, s) && Step(p, T, s, e, s2) && t < |p.threads|
    ensures |s.pc| == |s2.pc| == |s.held| == |s2.held| == |p.threads| && s2.pc[t] <= |p.threads[t].events| && s.pc[t] <= |p.threads[t].events|
    ensures Enabled(p, T, s, e) && p.IsEvent(e) && s2.pc[t] == if Moves(p, T, e, t) then s.pc[t] + 1 else s.pc[t]
    ensures s2.held[t] == if t == e.tid then Replay(s.held[t], p.At(e)) else s.held[t]
    ensures s.held[t] == Held(p.threads[t].events, s.pc[t]) && e.tid < |p.threads|
  {
    if t == e.tid {
      ReplayFollows(s.held[t], p.At(e), s2.held[t]);
    }
    hide Held, Replay, LocksFollow, Moves;
  }

  lemma SelfMoves(p: Program, T: Teams, e: Pid)
    requires p.IsEvent(e)
    ensures Moves(p, T, e, e.tid)
  {
  }

  /** A thread that moves executes `e`, or its own event of the same barrier. */
  lemma MovesNext(p: Program, T: Teams, s: State, e: Pid, t: nat)
    requires Shaped(p, s) && Enabled(p, T, s, e) && t < |p.threads| && Moves(p, T, e, t)
    ensures p.IsEvent(Pid(t, s.pc[t])) && s.pc[t] < |p.threads[t].events|
    ensures if t == e.tid then s.pc[t] == e.eid && p.threads[t].events[s.pc[t]] == p.At(e) else p.threads[t].events[s.pc[t]].Barrier?
  {
    if t != e.tid {
      assert AtBarrier(p, s, p.At(e).inst, t);
    }
  }

  lemma Exclusive(p: Program, T: Teams, s: State, e: Pid, s2: State, t: nat, u: nat, l: nat)
    requires Shaped(p, s) && LocksKept(p, s) && Step(p, T, s, e, s2) && t < u < |p.threads|
    ensures !(l in s2.held[t] && l in s2.held[u])
  {
    hide InTeam, AtBarrier, Held;
    assert l in s.held[t] ==> l !in s.held[u];
    assert forall v :: 0 <= v < |p.threads| && l in s2.held[v] ==> l in s.held[v] || (v == e.tid && p.At(e) == Lock(l));
  }

  /** A newly executed event had all its direct predecessors executed before, or together with it. */
  lemma StepOrder(p: Program, T: Teams, S: set<Arc>, s: State, e: Pid, s2: State)
    requires IsSyncArcs(p, S) && NoneApart(p, T, s2) && StartedOk(p, s) && OrderKept(p, S, s) && Step(p, T, s, e, s2)
    ensures OrderKept(p, S, s2)
  {
    forall f | f in EventGraph(p, S) && Executed(s2, f.dst)
      ensures Executed(s2, f.src)
    {
      if !Executed(s, f.dst) {
        assert Moves(p, T, e, f.dst.tid) && s.pc[f.dst.tid] == f.dst.eid;
        if f in S {
          var c :| Contributes(p, c, f);
          ArcExecuted(p, T, s, e, s2, c, f);
        }
      }
    }
  }

  lemma ArcExecuted(p: Program, T: Teams, s: State, e: Pid, s2: State, c: Pid, f: Arc)
    requires NoneApart(p, T, s2) && StartedOk(p, s) && Step(p, T, s, e, s2) && Contributes(p, c, f)
    requires Executed(s2, f.dst) && !Executed(s, f.dst)
    ensures Executed(s2, f.src)
  {
    var d := f.dst;
    assert Moves(p, T, e, d.tid);
    if d.tid != e.tid {
      assert AtBarrier(p, s, p.At(e).inst, d.tid);
    }
    assert IsNextEvent(p, s, d);
    match p.At(c) {
      case Fork(_, _) =>
      case Join =>
      case Barrier(b) =>
        assert p.At(d) == p.At(f.src) == Barrier(b);
        assert p.At(e) == Barrier(b);
        assert T(d.tid) == T(e.tid);
        assert !Apart(p, T, d, f.src);
        assert p.threads[f.src.tid].events[f.src.eid] in p.threads[f.src.tid].events;
        assert InTeam(p, T, b, e.tid, f.src.tid);
        assert AtBarrier(p, s, b, f.src.tid);
        assert Executed(s2, Pid(f.src.tid, s.pc[f.src.tid]));
        assert !Apart(p, T, Pid(f.src.tid, s.pc[f.src.tid]), f.src);
      case _ =>
    }
  }

  /** In every state of every run, threads run only after their fork, and locks are exclusive. */
  lemma {:induction false} RunLocks(p: Program, T: Teams, run: seq<State>, i: nat)
    requires IsRun(p, T, run) && i < |run|
    ensures Shaped(p, run[i]) && StartedOk(p, run[i]) && LocksKept(p, run[i])
  {
    if i == 0 {
      StartInv(p, {});
    } else {
      RunLocks(p, T, run, i - 1);
      assert Follows(p, T, run[i - 1], run[i]);
      var e :| Step(p, T, run[i - 1], e, run[i]);
      StepStarted(p, T, run[i - 1], e, run[i]);
      StepLocks(p, T, run[i - 1], e, run[i]);
    }
  }

  lemma StepStays(p: Program, T: Teams, s: State, e: Pid, s2: State)
    requires Step(p, T, s, e, s2) && NoneApart(p, T, s2)
    ensures NoneApart(p, T, s)
  {
    assert forall a :: Executed(s, a) ==> Executed(s2, a);
  }

  /** As long as no executed barrier event has one apart from it, the order is kept. */
  lemma {:induction false} RunOrder(p: Program, T: Teams, S: set<Arc>, run: seq<State>, i: nat)
    requires IsSyncArcs(p, S) && IsRun(p, T, run) && i < |run| && NoneApart(p, T, run[i])
    ensures forall j :: 0 <= j <= i ==> OrderKept(p, S, run[j])
  {
    hide IsSyncArcs, OrderKept, NoneApart, Step;
    if i == 0 {
      StartInv(p, S);
    } else {
      RunLocks(p, T, run, i - 1);
      assert Follows(p, T, run[i - 1], run[i]);
      var e :| Step(p, T, run[i - 1], e, run[i]);
      StepStays(p, T, run[i - 1], e, run[i]);
      RunOrder(p, T, S, run, i - 1);
      StepOrder(p, T, S, run[i - 1], e, run[i]);
    }
  }

  /** Such a state keeps the whole invariant. */
  lemma RunInv(p: Program, T: Teams, S: set<Arc>, run: seq<State>, i: nat)
    requires IsSyncArcs(p, S) && IsRun(p, T, run) && i < |run| && NoneApart(p, T, run[i])
    ensures Inv(p, S, run[i])
  {
    hide IsSyncArcs, OrderKept, NoneApart, LocksKept, StartedOk, IsRun;
    RunLocks(p, T, run, i);
    RunOrder(p, T, S, run, i);
  }

  /** The step of the run that executed an event. */
  lemma {:induction false} ExecutedAt(p: Program, T: Teams, run: seq<State>, i: nat, e: Pid) returns (j: nat)
    requires IsRun(p, T, run) && i < |run| && Executed(run[i], e)
    ensures 0 < j <= i && Executed(run[j], e) && !Executed(run[j - 1], e)
  {
    if i > 0 && !Executed(run[i - 1], e) {
      j := i;
    } else {
      j := ExecutedAt(p, T, run, i - 1, e);
    }
  }

  /** Events that one step executes are on different threads, and those of a barrier are of one team. */
  lemma OneStep(p: Program, T: Teams, s: State, x: Pid, s2: State, e: Pid, f: Pid)
    requires Step(p, T, s, x, s2) && Executed(s2, e) && !Executed(s, e) && Executed(s2, f) && !Executed(s, f)
    ensures !Apart(p, T, e, f)
  {
    assert Moves(p, T, x, e.tid) && Moves(p, T, x, f.tid);
    assert s.pc[e.tid] == e.eid && s.pc[f.tid] == f.eid;
    assert e == Pid(e.tid, e.eid) && f == Pid(f.tid, f.eid);
  }

  /** All events of a barrier happen before each other, so two that are apart break the order when one is executed. */
  lemma ApartBreaks(p: Program, T: Teams, S: set<Arc>, run: seq<State>, i: nat, e: Pid, f: Pid) returns (j: nat)
    requires IsSyncArcs(p, S) && IsRun(p, T, run) && i < |run| && Apart(p, T, e, f) && Executed(run[i], e)
    ensures j <= i && !OrderKept(p, S, run[j])
  {
    hide IsSyncArcs, OrderKept, Step, Executed;
    var k := ExecutedAt(p, T, run, i, e);
    BarrierLeads(p, S, e, f);
    assert Follows(p, T, run[k - 1], run[k]);
    var x :| Step(p, T, run[k - 1], x, run[k]);
    if !OrderKept(p, S, run[k]) {
      j := k;
    } else {
      j := k - 1;
      LeadsExecuted(p, S, run[k], f, e);
      if OrderKept(p, S, run[k - 1]) && Executed(run[k - 1], f) {
        LeadsExecuted(p, S, run[k - 1], e, f);
      }
      if OrderKept(p, S, run[k - 1]) {
        OneStep(p, T, run[k - 1], x, run[k], e, f);
      }
    }
  }

  lemma LeadsExecuted(p: Program, S: set<Arc>, s: State, a: Pid, b: Pid)
    requires OrderKept(p, S, s) && Leads(EventGraph(p, S), a, b) && Executed(s, b)
    ensures Executed(s, a)
  {
    var w :| IsWalk(EventGraph(p, S), a, w, b);
    WalkExecuted(p, S, s, a, w, b);
  }

  /**
   * Barrier edges are right exactly as long as barriers are passed by one team, once: up to any state of any run,
   * everything executed had all it depends on executed iff no barrier event executed so far has one apart from it.
   */
  lemma OrderKeptIff(p: Program, T: Teams, S: set<Arc>, run: seq<State>, i: nat)
    requires IsSyncArcs(p, S) && IsRun(p, T, run) && i < |run|
    ensures (forall j :: 0 <= j <= i ==> OrderKept(p, S, run[j])) <==> NoneApart(p, T, run[i])
  {
    hide IsSyncArcs, OrderKept, IsRun, Apart, Executed;
    if NoneApart(p, T, run[i]) {
      RunOrder(p, T, S, run, i);
    } else {
      var e, f :| Apart(p, T, e, f) && Executed(run[i], e);
      var j := ApartBreaks(p, T, S, run, i, e, f);
    }
  }

  ghost predicate OrderSound(p: Program, T: Teams, S: set<Arc>) {
    forall run, i :: IsRun(p, T, run) && 0 <= i < |run| ==> OrderKept(p, S, run[i])
  }

  ghost predicate NeverApart(p: Program, T: Teams) {
    forall run, i :: IsRun(p, T, run) && 0 <= i < |run| ==> NoneApart(p, T, run[i])
  }

  /** The graph orders no run wrongly iff no run executes a barrier event that has another one apart from it. */
  lemma OrderSoundIff(p: Program, T: Teams, S: set<Arc>)
    requires IsSyncArcs(p, S)
    ensures OrderSound(p, T, S) <==> NeverApart(p, T)
    ensures BarriersTogether(p, T) ==> NeverApart(p, T)
  {
    hide IsSyncArcs, OrderKept, IsRun, Apart, Executed;
    forall run, i | IsRun(p, T, run) && 0 <= i < |run|
      ensures (forall j :: 0 <= j <= i ==> OrderKept(p, S, run[j])) <==> NoneApart(p, T, run[i])
    {
      OrderKeptIff(p, T, S, run, i);
    }
  }

  lemma {:induction false} WalkExecuted(p: Program, S: set<Arc>, s: State, a: Pid, w: seq<Pid>, b: Pid)
    requires OrderKept(p, S, s) && IsWalk(EventGraph(p, S), a, w, b) && Executed(s, b)
    ensures Executed(s, a)
    decreases |w|
  {
    if w != [] {
      WalkExecuted(p, S, s, w[0], w[1..], b);
      assert Arc(a, w[0]).dst == w[0];
    }
  }

  /** The state after executing an enabled event. */
  ghost function Execute(p: Program, T: Teams, s: State, e: Pid): State
    requires Shaped(p, s) && Enabled(p, T, s, e)
  {
    State(seq(|p.threads|, t requires 0 <= t < |p.threads| => if Moves(p, T, e, t) then s.pc[t] + 1 else s.pc[t]),
          s.started + (set c | 0 <= c < |p.threads| && p.threads[c].spawn == Some(e)),
          seq(|p.threads|, t requires 0 <= t < |p.threads| => if t == e.tid then Replay(s.held[t], p.At(e)) else s.held[t]))
  }

  lemma ExecuteSteps(p: Program, T: Teams, s: State, e: Pid)
    requires Shaped(p, s) && Enabled(p, T, s, e)
    ensures Step(p, T, s, e, Execute(p, T, s, e))
  {
    ReplayFollows(s.held[e.tid], p.At(e), Replay(s.held[e.tid], p.At(e)));
    forall t | 0 <= t < |p.threads| && Moves(p, T, e, t)
      ensures s.pc[t] < |p.threads[t].events|
    {
      if t != e.tid {
        assert AtBarrier(p, s, p.At(e).inst, t);
      }
    }
  }

  /** A step executes, besides events executed before, its own event and barrier events. */
  lemma StepExecutes(p: Program, T: Teams, s: State, e: Pid, s2: State, a: Pid)
    requires Step(p, T, s, e, s2) && p.IsEvent(a) && Executed(s2, a)
    ensures Executed(s, a) || a == e || p.At(a).Barrier?
  {
    if !Executed(s, a) {
      assert Moves(p, T, e, a.tid);
      assert s.pc[a.tid] == a.eid;
      if a.tid != e.tid {
        assert AtBarrier(p, s, p.At(e).inst, a.tid);
      }
    }
  }

  lemma EnabledAfter(p: Program, T: Teams, S: set<Arc>, s: State, a: Pid, b: Pid)
    requires IsSyncArcs(p, S) && Inv(p, S, s)
    requires p.IsEvent(a) && p.IsEvent(b) && a != b && !p.At(a).Barrier? && Leads(EventGraph(p, S), a, b)
    requires Enabled(p, T, s, b) && NoneApart(p, T, Execute(p, T, s, b))
    ensures Executed(s, a)
  {
    var s2 := Execute(p, T, s, b);
    ExecuteSteps(p, T, s, b);
    StepOrder(p, T, S, s, b, s2);
    assert Executed(s2, b);
    hide Execute, OrderKept, IsSyncArcs, NoneApart, StartedOk, LocksKept, Enabled, Step, EventGraph;
    var w :| IsWalk(EventGraph(p, S), a, w, b);
    WalkExecuted(p, S, s2, a, w, b);
    StepExecutes(p, T, s, b, s2, a);
  }

  /** Executing an event that is no barrier changes nothing about barriers. */
  lemma ExecuteOther(p: Program, T: Teams, s: State, b: Pid)
    requires Shaped(p, s) && Enabled(p, T, s, b) && NoneApart(p, T, s) && !p.At(b).Barrier?
    ensures NoneApart(p, T, Execute(p, T, s, b))
  {
    var s2 := Execute(p, T, s, b);
    ExecuteSteps(p, T, s, b);
    forall e, f | Apart(p, T, e, f)
      ensures !Executed(s2, e)
    {
      assert !Executed(s, e);
      assert e.tid != b.tid ==> !Moves(p, T, b, e.tid);
    }
  }

  /**
   * In every state of every run in which no executed barrier event has one apart from it, an event that another one
   * happens before is enabled only after that one. For a barrier event the condition includes its own execution.
   */
  lemma OrderedNotParallel(p: Program, T: Teams, S: set<Arc>, run: seq<State>, i: nat, a: Pid, b: Pid)
    requires IsSyncArcs(p, S) && IsRun(p, T, run) && i < |run| && NoneApart(p, T, run[i])
    requires p.IsEvent(a) && p.IsEvent(b) && a != b && !p.At(a).Barrier? && Leads(EventGraph(p, S), a, b)
    ensures Shaped(p, run[i])
    ensures Enabled(p, T, run[i], b) && (p.At(b).Barrier? ==> NoneApart(p, T, Execute(p, T, run[i], b))) ==>
      Executed(run[i], a) && !Enabled(p, T, run[i], a)
  {
    RunInv(p, T, S, run, i);
    hide Leads, IsSyncArcs, IsRun, NoneApart, Execute;
    if Enabled(p, T, run[i], b) && (p.At(b).Barrier? ==> NoneApart(p, T, Execute(p, T, run[i], b))) {
      if !p.At(b).Barrier? {
        ExecuteOther(p, T, run[i], b);
      }
      EnabledAfter(p, T, S, run[i], a, b);
    }
  }

  /** In traces where each barrier is met by one team, once per thread, this holds without further condition. */
  lemma OrderedTogether(p: Program, T: Teams, S: set<Arc>, run: seq<State>, i: nat, a: Pid, b: Pid)
    requires IsSyncArcs(p, S) && BarriersTogether(p, T) && IsRun(p, T, run) && i < |run|
    requires p.IsEvent(a) && p.IsEvent(b) && a != b && !p.At(a).Barrier? && Leads(EventGraph(p, S), a, b)
    ensures Shaped(p, run[i]) && (Enabled(p, T, run[i], b) ==> Executed(run[i], a))
    ensures !(Enabled(p, T, run[i], a) && Enabled(p, T, run[i], b))
  {
    assert forall s :: NoneApart(p, T, s);
    hide Leads, IsSyncArcs, IsRun, NoneApart, BarriersTogether, Enabled, Execute;
    OrderedNotParallel(p, T, S, run, i, a, b);
  }

  /** In every state of every run, two events on different threads that hold a common lock are not both enabled. */
  lemma LockedNotParallel(p: Program, T: Teams, run: seq<State>, i: nat, a: Pid, b: Pid, l: nat)
    requires IsRun(p, T, run) && i < |run|
    requires p.IsEvent(a) && p.IsEvent(b) && a.tid != b.tid && l in HeldAt(p, a) && l in HeldAt(p, b)
    ensures Shaped(p, run[i]) && !(Enabled(p, T, run[i], a) && Enabled(p, T, run[i], b))
  {
    RunLocks(p, T, run, i);
  }

  /** The happens-before graph orders the two events, one way or the other. */
  ghost predicate IsOrdered(p: Program, S: set<Arc>, a: Pid, b: Pid) {
    Leads(EventGraph(p, S), a, b) || Leads(EventGraph(p, S), b, a)
  }

  /** The two events hold a common lock. */
  ghost predicate CommonLock(p: Program, a: Pid, b: Pid)
    requires p.IsEvent(a) && p.IsEvent(b)
  {
    exists l :: l in HeldAt(p, a) && l in HeldAt(p, b)
  }

  /**
   * What the race check dismisses never happens: no run reaches a state where both accesses could be next, if
   * they hold a common lock, or if they are ordered and no executed barrier event has one apart from it.
   */
  lemma DismissedNotParallel(p: Program, T: Teams, S: set<Arc>, run: seq<State>, i: nat, a: Pid, b: Pid)
    requires IsSyncArcs(p, S) && IsRun(p, T, run) && i < |run|
    requires p.IsEvent(a) && p.IsEvent(b) && a.tid != b.tid && !p.At(a).Barrier? && !p.At(b).Barrier?
    ensures Shaped(p, run[i])
    ensures CommonLock(p, a, b) || (IsOrdered(p, S, a, b) && NoneApart(p, T, run[i])) ==> !(Enabled(p, T, run[i], a) && Enabled(p, T, run[i], b))
  {
    RunLocks(p, T, run, i);
    hide IsRun, IsSyncArcs, Enabled, Leads, NoneApart, LocksKept, StartedOk, Execute, HeldAt;
    if CommonLock(p, a, b) {
      var l :| l in HeldAt(p, a) && l in HeldAt(p, b);
      LockedNotParallel(p, T, run, i, a, b, l);
    } else if IsOrdered(p, S, a, b) && NoneApart(p, T, run[i]) {
      if Leads(EventGraph(p, S), a, b) {
        OrderedNotParallel(p, T, S, run, i, a, b);
      } else {
        OrderedNotParallel(p, T, S, run, i, b, a);
      }
    }
  }

  /** Both events could be next. */
  ghost predicate BothEnabled(p: Program, T: Teams, s: State, a: Pid, b: Pid) {
    Shaped(p, s) && Enabled(p, T, s, a) && Enabled(p, T, s, b)
  }

  /** The first two filters of `checkRace`, justified against every state of every run. */
  method CheckDismissal(p: Program, hb: HappensBeforeGraph, locks: LockSet, a: Pid, b: Pid) returns (dismissed: bool)
    requires hb.Linked() && hb.Closed() && IsSyncArcs(p, hb.arcs) && locks.Valid(p)
    requires p.IsEvent(a) && p.IsEvent(b) && a.tid != b.tid && !p.At(a).Barrier? && !p.At(b).Barrier?
    modifies locks
    ensures locks.Valid(p) && (dismissed <==> IsOrdered(p, hb.arcs, a, b) || CommonLock(p, a, b))
    ensures forall T: Teams, run, i :: dismissed && IsRun(p, T, run) && 0 <= i < |run| && (CommonLock(p, a, b) || NoneApart(p, T, run[i])) ==>
      !BothEnabled(p, T, run[i], a, b)
  {
    forall T: Teams, run, i | IsRun(p, T, run) && 0 <= i < |run| && (CommonLock(p, a, b) || (IsOrdered(p, hb.arcs, a, b) && NoneApart(p, T, run[i])))
      ensures !BothEnabled(p, T, run[i], a, b)
    {
      DismissedNotParallel(p, T, hb.arcs, run, i, a, b);
    }
    SyncArcsOk(p, hb.arcs);
    assert IsOrdered(p, hb.arcs, a, b) <==> Leads(EventGraph(p, hb.arcs), a, b) || Leads(EventGraph(p, hb.arcs), b, a);
    assert CommonLock(p, a, b) <==> exists l :: l in HeldAt(p, a) && l in HeldAt(p, b);
    hide IsSyncArcs, Leads, BothEnabled, IsRun, NoneApart, CommonLock, IsOrdered;
    var parallel := hb.AreParallel(p, a, b);
    if !parallel {
      return true;
    }
    dismissed := locks.SharesLock(p, a, b);
  }

  // ---- Pairs of accesses -------------------------------------------------------------------

  /** Two events of one barrier instruction. */
  ghost predicate SameBarrier(p: Program, g: Pid, h: Pid) {
    p.IsEvent(g) && p.IsEvent(h) && p.At(g).Barrier? && p.At(g) == p.At(h)
  }

  /** The order may only be broken along barrier edges. */
  ghost predicate MostlyKept(p: Program, S: set<Arc>, s: State) {
    forall f :: f in EventGraph(p, S) && Executed(s, f.dst) ==> Executed(s, f.src) || SameBarrier(p, f.src, f.dst)
  }

  lemma StepMostly(p: Program, T: Teams, S: set<Arc>, s: State, e: Pid, s2: State)
    requires IsSyncArcs(p, S) && StartedOk(p, s) && MostlyKept(p, S, s) && Step(p, T, s, e, s2)
    ensures MostlyKept(p, S, s2)
  {
    forall f | f in EventGraph(p, S) && Executed(s2, f.dst)
      ensures Executed(s2, f.src) || SameBarrier(p, f.src, f.dst)
    {
      if !Executed(s, f.dst) {
        assert Moves(p, T, e, f.dst.tid) && s.pc[f.dst.tid] == f.dst.eid;
        if f in S {
          var c :| Contributes(p, c, f);
          ArcMostly(p, T, s, e, s2, c, f);
        }
      }
    }
  }

  lemma ArcMostly(p: Program, T: Teams, s: State, e: Pid, s2: State, c: Pid, f: Arc)
    requires StartedOk(p, s) && Step(p, T, s, e, s2) && Contributes(p, c, f)
    requires Executed(s2, f.dst) && !Executed(s, f.dst)
    ensures Executed(s2, f.src) || SameBarrier(p, f.src, f.dst)
  {
    var d := f.dst;
    assert Moves(p, T, e, d.tid);
    if d.tid != e.tid {
      assert AtBarrier(p, s, p.At(e).inst, d.tid);
    }
    assert IsNextEvent(p, s, d);
  }

  /** Program order, forks and joins are respected in every state of every run. */
  lemma {:induction false} RunMostly(p: Program, T: Teams, S: set<Arc>, run: seq<State>, i: nat)
    requires IsSyncArcs(p, S) && IsRun(p, T, run) && i < |run|
    ensures MostlyKept(p, S, run[i])
  {
    hide IsSyncArcs, Step;
    if i == 0 {
      StartInv(p, S);
    } else {
      hide MostlyKept;
      RunLocks(p, T, run, i - 1);
      RunMostly(p, T, S, run, i - 1);
      assert Follows(p, T, run[i - 1], run[i]);
      var e :| Step(p, T, run[i - 1], e, run[i]);
      StepMostly(p, T, S, run[i - 1], e, run[i]);
    }
  }

  /** `g` has been executed and `h`, an event of the same barrier, has not, but `a` is before `h` and `b` after `g`. */
  ghost predicate Split(p: Program, S: set<Arc>, s: State, a: Pid, b: Pid, g: Pid, h: Pid) {
    SameBarrier(p, g, h) && Executed(s, g) && !Executed(s, h) && Leads(EventGraph(p, S), a, h) && Leads(EventGraph(p, S), g, b)
  }

  /** A walk from what has not been executed to what has been crosses from one event of a barrier to another. */
  lemma {:induction false} WalkSplits(p: Program, S: set<Arc>, s: State, a: Pid, w: seq<Pid>, b: Pid) returns (g: Pid, h: Pid)
    requires MostlyKept(p, S, s) && IsWalk(EventGraph(p, S), a, w, b) && !Executed(s, a) && Executed(s, b)
    ensures Split(p, S, s, a, b, g, h)
    decreases |w|
  {
    var E := EventGraph(p, S);
    assert w != [];
    assert Arc(a, w[0]) in E && Arc(a, w[0]).dst == w[0] && IsWalk(E, w[0], w[1..], b);
    if Executed(s, w[0]) {
      g, h := w[0], a;
      LeadsRefl(E, a);
    } else {
      g, h := WalkSplits(p, S, s, w[0], w[1..], b);
      LeadsEdge(E, a, w[0]);
      LeadsTrans(E, a, w[0], h);
    }
  }

  /** Executing an event that is no barrier executes nothing else. */
  lemma ExecuteOne(p: Program, T: Teams, s: State, b: Pid)
    requires Shaped(p, s) && Enabled(p, T, s, b) && !p.At(b).Barrier?
    ensures forall e :: Executed(Execute(p, T, s, b), e) <==> Executed(s, e) || e == b
  {
    forall e
      ensures Executed(Execute(p, T, s, b), e) <==> Executed(s, e) || e == b
    {
      assert e == Pid(e.tid, e.eid) && b == Pid(b.tid, b.eid);
    }
  }

  /**
   * When the order filter is wrong about a pair: of two accesses that a run has both enabled, the graph puts one
   * before the other iff some barrier has an event that was executed and leads to the second one, and another
   * that was not executed and that the first one leads to.
   */
  lemma WronglyOrderedIff(p: Program, T: Teams, S: set<Arc>, run: seq<State>, i: nat, a: Pid, b: Pid)
    requires IsSyncArcs(p, S) && IsRun(p, T, run) && i < |run| && BothEnabled(p, T, run[i], a, b)
    requires p.IsEvent(a) && p.IsEvent(b) && a != b && !p.At(a).Barrier? && !p.At(b).Barrier?
    ensures Leads(EventGraph(p, S), a, b) <==> exists g, h :: Split(p, S, run[i], a, b, g, h)
  {
    var s := run[i];
    if g, h :| Split(p, S, s, a, b, g, h) {
      BarrierLeads(p, S, h, g);
      hide *;
      SplitLeads(p, S, s, a, b, g, h);
    } else {
      if Leads(EventGraph(p, S), a, b) {
        OrderedSplits(p, T, S, run, i, a, b);
      }
    }
  }

  lemma SplitLeads(p: Program, S: set<Arc>, s: State, a: Pid, b: Pid, g: Pid, h: Pid)
    requires Split(p, S, s, a, b, g, h) && Leads(EventGraph(p, S), h, g)
    ensures Leads(EventGraph(p, S), a, b)
  {
    hide Leads, EventGraph;
    LeadsTrans(EventGraph(p, S), a, h, g);
    LeadsTrans(EventGraph(p, S), a, g, b);
  }

  lemma OrderedSplits(p: Program, T: Teams, S: set<Arc>, run: seq<State>, i: nat, a: Pid, b: Pid)
    requires IsSyncArcs(p, S) && IsRun(p, T, run) && i < |run| && BothEnabled(p, T, run[i], a, b)
    requires p.IsEvent(a) && p.IsEvent(b) && a != b && !p.At(a).Barrier? && !p.At(b).Barrier?
    requires Leads(EventGraph(p, S), a, b)
    ensures exists g, h :: Split(p, S, run[i], a, b, g, h)
  {
    var s := run[i];
    RunLocks(p, T, run, i);
    RunMostly(p, T, S, run, i);
    var s2 := Execute(p, T, s, b);
    ExecuteSteps(p, T, s, b);
    ExecuteOne(p, T, s, b);
    assert !Executed(s, a);
    hide IsRun, LocksKept, Execute, MostlyKept, Step, IsSyncArcs, Enabled, Executed, StartedOk;
    StepMostly(p, T, S, s, b, s2);
    var w :| IsWalk(EventGraph(p, S), a, w, b);
    var g, h := WalkSplits(p, S, s2, a, w, b);
    assert Split(p, S, s, a, b, g, h);
  }

  /** Some barrier separates the two accesses in the graph, one way or the other, but not in the run. */
  ghost predicate IsSplit(p: Program, S: set<Arc>, s: State, a: Pid, b: Pid) {
    (exists g, h :: Split(p, S, s, a, b, g, h)) || exists g, h :: Split(p, S, s, b, a, g, h)
  }

  /** The same for the filter: two accesses that a run has both enabled are dismissed iff a barrier splits them so. */
  lemma DismissedIff(p: Program, T: Teams, S: set<Arc>, run: seq<State>, i: nat, a: Pid, b: Pid)
    requires IsSyncArcs(p, S) && IsRun(p, T, run) && i < |run| && BothEnabled(p, T, run[i], a, b)
    requires p.IsEvent(a) && p.IsEvent(b) && a.tid != b.tid && !p.At(a).Barrier? && !p.At(b).Barrier?
    ensures IsOrdered(p, S, a, b) || CommonLock(p, a, b) <==> IsSplit(p, S, run[i], a, b)
    ensures NoneApart(p, T, run[i]) ==> !IsSplit(p, S, run[i], a, b)
  {
    WronglyOrderedIff(p, T, S, run, i, a, b);
    WronglyOrderedIff(p, T, S, run, i, b, a);
    DismissedNotParallel(p, T, S, run, i, a, b);
    hide IsRun, Split, Leads, IsSyncArcs, CommonLock, NoneApart;
  }
}
