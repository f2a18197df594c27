/**
 * In traces without locks and barriers the graph orders exactly what every run orders: whatever does not lead to
 * an event can be left out of a run that executes it.
 */
module OrderExactness {
  import opened Options
  import opened Traces
  import opened Walks
  import opened HappensBefore
  import opened HappensBeforeGraphs
  import opened Interleavings

  /** Threads synchronise by forks and joins only, and were spawned by fork events. */
  ghost predicate ForkJoinOnly(p: Program) {
    && (forall e: Pid :: p.IsEvent(e) ==> !p.At(e).Lock? && !p.At(e).Barrier?)
    && (forall c :: 0 <= c < |p.threads| && p.threads[c].spawn.Some? ==> p.IsEvent(p.threads[c].spawn.value) && p.At(p.threads[c].spawn.value).Fork?)
  }

  /** How many of the first `n` events of thread `t` are kept when only what leads to `b` is. */
  ghost function Cut(E: set<Arc>, b: Pid, t: nat, n: nat): nat {
    if n == 0 then 0 else if Leads(E, Pid(t, n - 1), b) then n else Cut(E, b, t, n - 1)
  }

  /** What is kept of a thread is the part that leads to `b`. */
  lemma {:induction false} CutMeans(p: Program, S: set<Arc>, b: Pid, t: nat, n: nat, k: nat)
    requires t < |p.threads| && n <= |p.threads[t].events| && k < n
    ensures k < Cut(EventGraph(p, S), b, t, n) <==> Leads(EventGraph(p, S), Pid(t, k), b)
    ensures Cut(EventGraph(p, S), b, t, n) <= n
  {
    hide Leads, EventGraph;
    var E := EventGraph(p, S);
    if Leads(E, Pid(t, n - 1), b) {
      OrderLeads(p, S, Pid(t, k), Pid(t, n - 1));
      LeadsTrans(E, Pid(t, k), Pid(t, n - 1), b);
    } else if k < n - 1 {
      CutMeans(p, S, b, t, n - 1, k);
    } else {
      CutBound(E, b, t, n - 1);
    }
  }

  lemma {:induction false} CutBound(E: set<Arc>, b: Pid, t: nat, n: nat)
    ensures Cut(E, b, t, n) <= n
  {
    if n > 0 {
      CutBound(E, b, t, n - 1);
    }
  }

  /** The state in which only what leads to `b` has been executed. */
  ghost function Reduced(p: Program, S: set<Arc>, b: Pid, s: State): State
    requires Shaped(p, s)
  {
    State(seq(|p.threads|, t requires 0 <= t < |p.threads| => Cut(EventGraph(p, S), b, t, s.pc[t])),
          (set t | t in s.started && t < |p.threads| && (p.threads[t].spawn.None? || Leads(EventGraph(p, S), p.threads[t].spawn.value, b))),
          seq(|p.threads|, _ => multiset{}))
  }

  lemma ReducedShaped(p: Program, S: set<Arc>, b: Pid, s: State)
    requires Shaped(p, s)
    ensures Shaped(p, Reduced(p, S, b, s))
  {
    forall t | 0 <= t < |p.threads|
      ensures Reduced(p, S, b, s).pc[t] <= |p.threads[t].events|
    {
      CutBound(EventGraph(p, S), b, t, s.pc[t]);
    }
  }

  lemma ReducedExecuted(p: Program, S: set<Arc>, b: Pid, s: State, e: Pid)
    requires Shaped(p, s) && p.IsEvent(e)
    ensures Executed(Reduced(p, S, b, s), e) <==> Executed(s, e) && Leads(EventGraph(p, S), e, b)
  {
    hide Leads, EventGraph;
    CutBound(EventGraph(p, S), b, e.tid, s.pc[e.tid]);
    if Executed(s, e) {
      CutMeans(p, S, b, e.tid, s.pc[e.tid], e.eid);
      assert e == Pid(e.tid, e.eid);
    }
  }

  /** A step that does not lead to `b` changes nothing in the reduced run. */
  lemma SkippedStep(p: Program, T: Teams, S: set<Arc>, b: Pid, s: State, e: Pid, s2: State)
    requires ForkJoinOnly(p) && Step(p, T, s, e, s2) && !Leads(EventGraph(p, S), e, b)
    ensures Reduced(p, S, b, s2) == Reduced(p, S, b, s)
  {
    hide Leads, EventGraph;
    assert e == Pid(e.tid, e.eid);
    assert !p.At(e).Barrier?;
    var r, r2 := Reduced(p, S, b, s), Reduced(p, S, b, s2);
    assert forall t :: 0 <= t < |p.threads| ==> r2.pc[t] == r.pc[t];
    assert r2.pc == r.pc;
    assert r2.started == r.started;
  }

  /** The event that leads to `b` is enabled in the reduced state too. */
  lemma ReducedEnabled(p: Program, T: Teams, S: set<Arc>, b: Pid, s: State, e: Pid)
    requires IsSyncArcs(p, S) && ForkJoinOnly(p) && Shaped(p, s) && Enabled(p, T, s, e) && Leads(EventGraph(p, S), e, b)
    ensures Shaped(p, Reduced(p, S, b, s)) && Enabled(p, T, Reduced(p, S, b, s), e)
  {
    ReducedShaped(p, S, b, s);
    ReducedNext(p, S, b, s, e);
    assert !p.At(e).Lock? && !p.At(e).Barrier?;
    if p.At(e).Join? && e in p.joined && p.joined[e] < |p.threads| {
      ReducedJoined(p, S, b, s, e);
    }
    hide Reduced, IsSyncArcs, ForkJoinOnly, Leads, EventGraph, Shaped, IsNextEvent;
  }

  /** A thread that was waited for is kept completely. */
  lemma ReducedJoined(p: Program, S: set<Arc>, b: Pid, s: State, e: Pid)
    requires IsSyncArcs(p, S) && Shaped(p, s) && p.IsEvent(e) && p.At(e).Join? && e in p.joined && p.joined[e] < |p.threads|
    requires s.pc[p.joined[e]] == |p.threads[p.joined[e]].events| && Leads(EventGraph(p, S), e, b)
    ensures Reduced(p, S, b, s).pc[p.joined[e]] == |p.threads[p.joined[e]].events|
  {
    var u := p.joined[e];
    var n := |p.threads[u].events|;
    if n > 0 {
      JoinLeads(p, S, e, Pid(u, n - 1));
      hide IsSyncArcs, EventGraph, Leads;
      LeadsTrans(EventGraph(p, S), Pid(u, n - 1), e, b);
    }
  }

  lemma ReducedNext(p: Program, S: set<Arc>, b: Pid, s: State, e: Pid)
    requires IsSyncArcs(p, S) && ForkJoinOnly(p) && Shaped(p, s) && IsNextEvent(p, s, e) && Leads(EventGraph(p, S), e, b)
    ensures IsNextEvent(p, Reduced(p, S, b, s), e)
  {
    var E := EventGraph(p, S);
    CutAt(p, S, b, e);
    if p.threads[e.tid].spawn.Some? {
      var x := p.threads[e.tid].spawn.value;
      ForkLeads(p, S, x, e);
      LeadsTrans(E, x, e, b);
    }
    hide Leads, EventGraph, IsSyncArcs;
  }

  lemma CutAt(p: Program, S: set<Arc>, b: Pid, e: Pid)
    requires p.IsEvent(e) && Leads(EventGraph(p, S), e, b)
    ensures Cut(EventGraph(p, S), b, e.tid, e.eid) == e.eid
  {
    hide Leads, EventGraph;
    CutBound(EventGraph(p, S), b, e.tid, e.eid);
    if e.eid > 0 {
      var before := Pid(e.tid, e.eid - 1);
      OrderLeads(p, S, before, e);
      LeadsTrans(EventGraph(p, S), before, e, b);
    }
  }

  /** A step that leads to `b` is a step of the reduced run. */
  lemma ReducedStep(p: Program, T: Teams, S: set<Arc>, b: Pid, s: State, e: Pid, s2: State)
    requires IsSyncArcs(p, S) && ForkJoinOnly(p) && Step(p, T, s, e, s2) && Leads(EventGraph(p, S), e, b)
    ensures Step(p, T, Reduced(p, S, b, s), e, Reduced(p, S, b, s2))
  {
    ReducedEnabled(p, T, S, b, s, e);
    ReducedShaped(p, S, b, s2);
    ReducedMoves(p, T, S, b, s, e, s2);
    hide IsSyncArcs, EventGraph, Leads, Reduced;
    assert LocksFollow(multiset{}, p.At(e), multiset{});
  }

  lemma ReducedMoves(p: Program, T: Teams, S: set<Arc>, b: Pid, s: State, e: Pid, s2: State)
    requires ForkJoinOnly(p) && Step(p, T, s, e, s2) && Leads(EventGraph(p, S), e, b)
    ensures
      var r, r2 := Reduced(p, S, b, s), Reduced(p, S, b, s2);
      && |r.pc| == |r2.pc| == |r.held| == |r2.held| == |p.threads|
      && !p.At(e).Barrier? && !p.At(e).Lock?
      && (forall t :: 0 <= t < |p.threads| ==> r2.pc[t] == if Moves(p, T, e, t) then r.pc[t] + 1 else r.pc[t])
      && (forall t :: 0 <= t < |p.threads| ==> r.held[t] == r2.held[t] == multiset{})
      && r2.started == r.started + (set c | 0 <= c < |p.threads| && p.threads[c].spawn == Some(e))
  {
    CutAt(p, S, b, e);
    hide EventGraph, Leads, Enabled, LocksFollow;
    assert e == Pid(e.tid, e.eid) && !p.At(e).Barrier? && !p.At(e).Lock?;
    var r, r2 := Reduced(p, S, b, s), Reduced(p, S, b, s2);
    assert r2.started == r.started + (set c | 0 <= c < |p.threads| && p.threads[c].spawn == Some(e));
  }

  /** Leaving out everything that does not lead to `b` leaves a run. */
  lemma {:induction false} ReducedRun(p: Program, T: Teams, S: set<Arc>, b: Pid, run: seq<State>, i: nat) returns (short: seq<State>)
    requires IsSyncArcs(p, S) && ForkJoinOnly(p) && IsRun(p, T, run) && i < |run|
    ensures Shaped(p, run[i]) && short != [] && IsRun(p, T, short) && short[|short| - 1] == Reduced(p, S, b, run[i])
  {
    hide *;
    RunLocks(p, T, run, i);
    if i == 0 {
      RunStarts(p, T, run);
      ReducedStart(p, S, b);
      short := [Reduced(p, S, b, run[0])];
    } else {
      var e := StepAt(p, T, run, i);
      short := ReducedRun(p, T, S, b, run, i - 1);
      if Leads(EventGraph(p, S), e, b) {
        ReducedStep(p, T, S, b, run[i - 1], e, run[i]);
        RunAppend(p, T, short, e, Reduced(p, S, b, run[i]));
        short := short + [Reduced(p, S, b, run[i])];
      } else {
        SkippedStep(p, T, S, b, run[i - 1], e, run[i]);
      }
    }
  }

  lemma RunStarts(p: Program, T: Teams, run: seq<State>)
    requires IsRun(p, T, run)
    ensures run != [] && run[0] == Start(p) && IsRun(p, T, [Start(p)])
  {
  }

  lemma StepAt(p: Program, T: Teams, run: seq<State>, i: nat) returns (e: Pid)
    requires IsRun(p, T, run) && 0 < i < |run|
    ensures Step(p, T, run[i - 1], e, run[i])
  {
    assert Follows(p, T, run[i - 1], run[i]);
    e :| Step(p, T, run[i - 1], e, run[i]);
  }

  lemma RunAppend(p: Program, T: Teams, run: seq<State>, e: Pid, s: State)
    requires run != [] && IsRun(p, T, run) && Step(p, T, run[|run| - 1], e, s)
    ensures IsRun(p, T, run + [s])
  {
    var more := run + [s];
    forall i | 0 < i < |more|
      ensures Follows(p, T, more[i - 1], more[i])
    {
      if i < |run| {
        assert Follows(p, T, run[i - 1], run[i]);
      }
    }
  }

  lemma ReducedStart(p: Program, S: set<Arc>, b: Pid)
    ensures Shaped(p, Start(p)) && Reduced(p, S, b, Start(p)) == Start(p)
  {
    hide Leads, EventGraph;
    var s, r := Start(p), Reduced(p, S, b, Start(p));
    assert r.pc == s.pc && r.started == s.started && r.held == s.held;
  }

  /** `a` has been executed in every state of every run in which `b` has been. */
  ghost predicate AlwaysBefore(p: Program, T: Teams, a: Pid, b: Pid) {
    forall run, i :: IsRun(p, T, run) && 0 <= i < |run| && Executed(run[i], b) ==> Executed(run[i], a)
  }

  /**
   * Happens-before is exact for forks and joins: if some run executes `b` at all, then the graph leads from `a` to `b`
   * iff every run that executes `b` has executed `a` by then.
   */
  lemma HappensBeforeExact(p: Program, T: Teams, S: set<Arc>, a: Pid, b: Pid, run: seq<State>, i: nat)
    requires IsSyncArcs(p, S) && ForkJoinOnly(p) && p.IsEvent(a) && p.IsEvent(b)
    requires IsRun(p, T, run) && i < |run| && Executed(run[i], b)
    ensures Leads(EventGraph(p, S), a, b) <==> AlwaysBefore(p, T, a, b)
  {
    if Leads(EventGraph(p, S), a, b) {
      forall other, j | IsRun(p, T, other) && 0 <= j < |other| && Executed(other[j], b)
        ensures Executed(other[j], a)
      {
        assert NoneApart(p, T, other[j]);
        RunOrder(p, T, S, other, j);
        LeadsExecuted(p, S, other[j], a, b);
      }
    } else {
      var short := ReducedRun(p, T, S, b, run, i);
      var last := |short| - 1;
      LeadsRefl(EventGraph(p, S), b);
      ReducedExecuted(p, S, b, run[i], a);
      ReducedExecuted(p, S, b, run[i], b);
      assert IsRun(p, T, short) && Executed(short[last], b) && !Executed(short[last], a);
    }
  }
}
