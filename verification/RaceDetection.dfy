/** From a program to its race candidates (src/RaceDetect.cpp:61-146, without the filters after the first two). */
module RaceDetection {
  import opened Options
  import opened Traces
  import opened Walks
  import opened TraceTrees
  import opened TraceSpecs
  import opened TraceMeanings
  import opened TraceBuilders
  import opened HappensBeforeGraphs
  import opened CreationOrders
  import opened LockSets
  import opened Interleavings
  import opened SharedMemories
  import opened RacePairs

  /** Accesses of different threads to a common object, at least one of them a write. */
  ghost predicate Conflict(p: Program, obj: nat, a: Pid, b: Pid) {
    a.tid != b.tid && Accesses(p, a, obj) && Accesses(p, b, obj) && (p.At(a).Write? || p.At(b).Write?)
  }

  /** The filters dismiss the pair. */
  ghost predicate IsDismissed(p: Program, S: set<Arc>, a: Pid, b: Pid) {
    IsOrdered(p, S, a, b) || (p.IsEvent(a) && p.IsEvent(b) && CommonLock(p, a, b))
  }

  ghost predicate IsCandidate(races: seq<Check>, obj: nat, a: Pid, b: Pid) {
    Check(obj, a, b) in races || Check(obj, b, a) in races
  }

  /**
   * A conflict that some run, for some assignment of threads to teams, has both enabled is among the candidates,
   * unless a barrier separates the two accesses in the graph but not in that run; and only then it is not.
   */
  ghost predicate NoneMissed(p: Program, S: set<Arc>, races: seq<Check>) {
    forall T: Teams, run, i, obj, a, b :: IsRun(p, T, run) && 0 <= i < |run| && BothEnabled(p, T, run[i], a, b) && Conflict(p, obj, a, b) ==>
      (IsCandidate(races, obj, a, b) <==> !IsSplit(p, S, run[i], a, b)) && (NoneApart(p, T, run[i]) ==> IsCandidate(races, obj, a, b))
  }

  lemma CheckedPair(p: Program, c: Check)
    requires Expected(p, c) > 0
    ensures Conflict(p, c.obj, c.write, c.other) && p.At(c.write).Write?
  {
    ExpectedPairs(p, c.obj, c.write, c.other);
    Positive(Writes(p, c.write, c.obj), Reads(p, c.other, c.obj) + if c.write.tid < c.other.tid then Writes(p, c.other, c.obj) else 0);
  }

  lemma NotMissed(p: Program, T: Teams, S: set<Arc>, races: seq<Check>, run: seq<State>, i: nat, obj: nat, a: Pid, b: Pid)
    requires IsSyncArcs(p, S) && IsRun(p, T, run) && i < |run| && BothEnabled(p, T, run[i], a, b) && Conflict(p, obj, a, b)
    requires forall c: Check :: c in races <==> Expected(p, c) > 0 && !IsDismissed(p, S, c.write, c.other)
    ensures IsCandidate(races, obj, a, b) <==> !IsSplit(p, S, run[i], a, b)
    ensures NoneApart(p, T, run[i]) ==> IsCandidate(races, obj, a, b)
  {
    ExpectedPairs(p, obj, a, b);
    DismissedIff(p, T, S, run, i, a, b);
    hide Expected, IsRun, IsSyncArcs, NoneApart, Enabled, IsSplit;
    assert Check(obj, a, b).write == a && Check(obj, b, a).write == b;
    assert CommonLock(p, a, b) <==> CommonLock(p, b, a);
  }

  /** The race check on every enumerated pair, as far as its first two filters. */
  method FilterChecks(p: Program, hb: HappensBeforeGraph, locks: LockSet, checks: seq<Check>) returns (races: seq<Check>)
    requires hb.Linked() && hb.Closed() && IsSyncArcs(p, hb.arcs) && locks.Valid(p)
    requires forall c :: c in checks ==> Expected(p, c) > 0
    modifies locks
    ensures forall c: Check :: c in races <==> c in checks && !IsDismissed(p, hb.arcs, c.write, c.other)
  {
    hide IsSyncArcs, IsOrdered, CommonLock, Expected, IsRun, NoneApart, BothEnabled, hb.Linked, hb.Closed, locks.Valid;
    races := [];
    var k := 0;
    while k < |checks|
      invariant k <= |checks| && locks.Valid(p)
      invariant forall c: Check :: c in races <==> c in checks[..k] && !IsDismissed(p, hb.arcs, c.write, c.other)
    {
      var c := checks[k];
      assert checks[..k + 1] == checks[..k] + [c];
      CheckedPair(p, c);
      var dismissed := CheckDismissal(p, hb, locks, c.write, c.other);
      if !dismissed {
        races := races + [c];
      }
      k := k + 1;
    }
    assert checks[..k] == checks;
  }

  /** The pairs that pass the first two filters, for a trace in which forks and threads correspond. */
  method DetectRaces(p: Program) returns (races: seq<Check>, ghost arcs: set<Arc>)
    requires ForksMatched(p)
    ensures IsSyncArcs(p, arcs) && NoneMissed(p, arcs, races)
    ensures forall c: Check :: c in races <==> Expected(p, c) > 0 && !IsDismissed(p, arcs, c.write, c.other)
  {
    hide ForksMatched, IsSyncArcs, IsDismissed, Expected, NoneMissed;
    var hb := new HappensBeforeGraph(p);
    var locks := new LockSet(p);
    var mem := new SharedMemory(p);
    var checks := CheckAll(p, mem);
    assert forall c: Check :: c in checks <==> c in multiset(checks);
    races := FilterChecks(p, hb, locks, checks);
    arcs := hb.arcs;
    AllFound(p, arcs, races);
  }

  lemma AllFound(p: Program, S: set<Arc>, races: seq<Check>)
    requires IsSyncArcs(p, S)
    requires forall c: Check :: c in races <==> Expected(p, c) > 0 && !IsDismissed(p, S, c.write, c.other)
    ensures NoneMissed(p, S, races)
  {
    hide IsSyncArcs, IsRun, BothEnabled, Conflict, Expected, IsDismissed, IsCandidate, IsSplit, NoneApart;
    forall T: Teams, run, i, obj: nat, a, b | IsRun(p, T, run) && 0 <= i < |run| && BothEnabled(p, T, run[i], a, b) && Conflict(p, obj, a, b)
      ensures IsCandidate(races, obj, a, b) <==> !IsSplit(p, S, run[i], a, b)
      ensures NoneApart(p, T, run[i]) ==> IsCandidate(races, obj, a, b)
    {
      NotMissed(p, T, S, races, run, i, obj, a, b);
    }
  }

  /**
   * The whole way: build the traces, match joins as `joined` says, enumerate the pairs and filter them.
   * If some state of some run has two conflicting accesses both enabled, the pair is among the candidates,
   * unless a barrier separates them wrongly.
   */
  method Analyze(m: Module, hooks: nat -> Visit, entry: Node, joined: map<Pid, nat>) returns (p: Program, races: seq<Check>, ghost log: seq<Pid>, ghost arcs: set<Arc>)
    requires m.Ok() && entry.fn < |m.summaries|
    ensures WellFormed(p.threads, log) && IsSyncArcs(p, arcs) && NoneMissed(p, arcs, races)
    ensures forall c: Check :: c in races <==> Expected(p, c) > 0 && !IsDismissed(p, arcs, c.write, c.other)
    ensures p.joined == map e | e in joined && joined[e] < |p.threads| :: joined[e]
    ensures
      var end := Traced(m, hooks, entry, [], [], 0, Recorded(false, 0, [Thread(None, [])], [], None, 0));
      p.threads == end.all && log == end.log
    ensures MeansCode(m, hooks, entry, p.threads)
  {
    hide MeansCode, m.Ok, WellFormed, IsSyncArcs, NoneMissed, Expected, IsDismissed, Traced;
    var threads;
    threads, log := BuildProgram(m, hooks, entry);
    p := Program(Flat(threads), map e | e in joined && joined[e] < |threads| :: joined[e]);
    BuiltForksMatched(p, log);
    races, arcs := DetectRaces(p);
  }
}
