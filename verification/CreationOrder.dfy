/**
 * Without barrier edges, and with every join created after the thread it was matched with, happens-before
 * follows the order in which the builder creates events (src/Trace/Build/TraceBuilder.cpp:112-135).
 */
module CreationOrders {
  import opened Options
  import opened Traces
  import opened Walks
  import opened TraceTrees
  import opened HappensBefore
  import opened HappensBeforeGraphs

  /** `a` was created before `b`. */
  ghost predicate Earlier(log: seq<Pid>, a: Pid, b: Pid) {
    exists i, j :: 0 <= i < j < |log| && log[i] == a && log[j] == b
  }

  /** No barrier instruction is met by two events, so the graph has no barrier edges. */
  ghost predicate BarriersAlone(p: Program) {
    forall e, f: Pid :: p.IsEvent(e) && p.IsEvent(f) && p.At(e).Barrier? && p.At(e) == p.At(f) ==> e == f
  }

  /** Every join was created when the thread it was matched with had been built completely. */
  ghost predicate JoinsLate(p: Program, log: seq<Pid>) {
    forall e, f: Pid :: e in p.joined && p.IsEvent(e) && p.IsEvent(f) && f.tid == p.joined[e] ==> Earlier(log, f, e)
  }

  lemma EarlierTrans(log: seq<Pid>, a: Pid, b: Pid, c: Pid)
    requires (forall i, j :: 0 <= i < j < |log| ==> log[i] != log[j]) && Earlier(log, a, b) && Earlier(log, b, c)
    ensures Earlier(log, a, c)
  {
    var i, j :| 0 <= i < j < |log| && log[i] == a && log[j] == b;
    var k, l :| 0 <= k < l < |log| && log[k] == b && log[l] == c;
    assert j == k;
  }

  lemma EventLogged(all: seq<Thread>, log: seq<Pid>, e: Pid) returns (i: nat)
    requires LogOk(all, log) && IsEventOf(all, e)
    ensures i < |log| && log[i] == e
  {
    i :| 0 <= i < |log| && log[i] == e;
  }

  /** Every program-order, fork and join edge goes forward in the creation order. */
  lemma EdgeForward(p: Program, S: set<Arc>, log: seq<Pid>, f: Arc)
    requires LogOk(p.threads, log) && IsSyncArcs(p, S) && BarriersAlone(p) && JoinsLate(p, log) && f in EventGraph(p, S)
    ensures Earlier(log, f.src, f.dst)
  {
    if f in S {
      var c :| Contributes(p, c, f);
      match p.At(c) {
        case Fork(_, _) =>
          var i := EventLogged(p.threads, log, f.src);
          var j := EventLogged(p.threads, log, f.dst);
          assert Spawned(p.threads, log[i], log[j].tid);
        case Join =>
          assert Earlier(log, f.src, f.dst);
        case _ =>
      }
    } else {
      var i := EventLogged(p.threads, log, f.src);
      var j := EventLogged(p.threads, log, f.dst);
    }
  }

  lemma {:induction false} WalkForward(p: Program, S: set<Arc>, log: seq<Pid>, a: Pid, w: seq<Pid>, b: Pid)
    requires LogOk(p.threads, log) && IsSyncArcs(p, S) && BarriersAlone(p) && JoinsLate(p, log)
    requires IsWalk(EventGraph(p, S), a, w, b)
    ensures a == b || Earlier(log, a, b)
    decreases |w|
  {
    if w != [] {
      EdgeForward(p, S, log, Arc(a, w[0]));
      WalkForward(p, S, log, w[0], w[1..], b);
      if w[0] != b {
        EarlierTrans(log, a, w[0], b);
      }
    }
  }

  /** No two events are ordered both ways. */
  ghost predicate OneWay(p: Program, S: set<Arc>) {
    forall a, b :: a != b && Leads(EventGraph(p, S), a, b) ==> !Leads(EventGraph(p, S), b, a)
  }

  lemma OrderedForward(p: Program, S: set<Arc>, log: seq<Pid>, a: Pid, b: Pid)
    requires LogOk(p.threads, log) && IsSyncArcs(p, S) && BarriersAlone(p) && JoinsLate(p, log)
    requires a != b && Leads(EventGraph(p, S), a, b)
    ensures !Leads(EventGraph(p, S), b, a)
  {
    hide IsSyncArcs, BarriersAlone, JoinsLate, EventGraph;
    var w :| IsWalk(EventGraph(p, S), a, w, b);
    WalkForward(p, S, log, a, w, b);
    if Leads(EventGraph(p, S), b, a) {
      var v :| IsWalk(EventGraph(p, S), b, v, a);
      WalkForward(p, S, log, b, v, a);
      EarlierTrans(log, a, b, a);
    }
  }

  /**
   * With every join created after the thread it was matched with, no two events are ordered both ways iff
   * no barrier instruction is met by two events. Every trace that was built comes with such a log.
   */
  lemma OrderedOneWay(p: Program, S: set<Arc>, log: seq<Pid>)
    requires LogOk(p.threads, log) && IsSyncArcs(p, S) && JoinsLate(p, log)
    ensures OneWay(p, S) <==> BarriersAlone(p)
  {
    hide IsSyncArcs, JoinsLate, EventGraph, Leads, IsPrevBarrier, LogOk;
    if BarriersAlone(p) {
      forall a, b | a != b && Leads(EventGraph(p, S), a, b)
        ensures !Leads(EventGraph(p, S), b, a)
      {
        OrderedForward(p, S, log, a, b);
      }
    } else {
      var e, f: Pid :| p.IsEvent(e) && p.IsEvent(f) && p.At(e).Barrier? && p.At(e) == p.At(f) && e != f;
      assert e.Less(f) || f.Less(e) by {
        assert e == Pid(e.tid, e.eid) && f == Pid(f.tid, f.eid);
      }
      var late, early := if e.Less(f) then f else e, if e.Less(f) then e else f;
      var q := PrevBarrier(p, late, early);
      BarrierOrdersBothWays(p, S, late, q);
    }
  }

  /** A well-formed trace meets what the happens-before graph asks of its input: forks and threads correspond. */
  lemma BuiltForksMatched(p: Program, log: seq<Pid>)
    requires WellFormed(p.threads, log) && forall e :: e in p.joined ==> p.joined[e] < |p.threads|
    ensures ForksMatched(p)
  {
    hide ChainsOk, LogOk, Frames, SpawnsOk;
    forall e: Pid | p.IsEvent(e) && p.At(e).Fork?
      ensures exists c :: 0 <= c < |p.threads| && p.threads[c].spawn == Some(e)
    {
      assert IsForkOf(p.threads, e);
      var c: nat :| Spawned(p.threads, e, c);
    }
    forall c, d | 0 <= c < d < |p.threads| && p.threads[c].spawn.Some?
      ensures p.threads[c].spawn != p.threads[d].spawn
    {
      assert Spawned(p.threads, p.threads[c].spawn.value, c);
      assert !Spawned(p.threads, p.threads[c].spawn.value, d);
    }
  }
}
